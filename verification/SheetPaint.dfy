/** Painting one sheet into the owner map, and copying one sheet to the screen, both in place and row by row. */
module SheetPaint {
  import opened Arith
  import opened Basics
  import opened Scene
  import opened SheetRows

  datatype Rect = Rect(x0: int, y0: int, x1: int, y1: int)

  predicate Inside(r: Rect, x: int, y: int) { r.x0 <= x < r.x1 && r.y0 <= y < r.y1 }

  /** r cut down to a screen. */
  function Clipped(r: Rect, xs: int, ys: int): Rect {
    Rect(Max(r.x0, 0), Max(r.y0, 0), Min(r.x1, xs), Min(r.y1, ys))
  }

  /** The byte of a screen array at a pixel. */
  function At(m: seq<byte>, xs: nat, x: int, y: int): byte {
    if 0 <= y * xs + x < |m| then m[y * xs + x] else 0
  }

  lemma PixelIndex(xs: nat, ys: nat, x: int, y: int)
    requires 0 <= x < xs && 0 <= y < ys
    ensures 0 <= y * xs + x < ys * xs
  {
    RowsApart(xs, y, ys);
  }

  /** A row of the map painted with sheet s between two of its columns. */
  ghost predicate RowPainted(s: View, row: int, brow: int, bx0: int, bx1: int, was: seq<byte>, now: seq<byte>) {
    && |was| == |now|
    && (bx0 < bx1 ==> 0 <= brow + bx0 && brow + bx1 <= |s.buf|)
    && forall p :: 0 <= p < |now| ==>
         now[p] == if row + bx0 <= p < row + bx1 && (s.inv == -1 || s.buf[brow + (p - row)] != s.inv) then s.sid else was[p]
  }

  /** The same in screen coordinates. */
  lemma RowInPlane(s: View, xs: nat, ys: nat, ry: int, bx0: int, bx1: int, was: seq<byte>, now: seq<byte>, x: int, y: int)
    requires WellFormed(s) && |was| == ys * xs && 0 <= x < xs && 0 <= y < ys
    requires 0 <= bx0 && bx1 <= s.w && 0 <= s.x + bx0 && s.x + bx1 <= xs && 0 <= ry < s.h
    requires RowPainted(s, (s.y + ry) * xs + s.x, ry * s.w, bx0, bx1, was, now)
    ensures At(now, xs, x, y) ==
            if y == s.y + ry && bx0 <= x - s.x < bx1 && Opaque(s, x, y) then s.sid else At(was, xs, x, y)
  {
    PixelIndex(xs, ys, x, y);
    RowsApart(xs, y, s.y + ry);
    RowsApart(xs, s.y + ry, y);
    if y == s.y + ry && bx0 <= x - s.x < bx1 {
      RowFitsBuffer(s.w, s.h, ry);
    }
  }

  lemma RowFitsBuffer(w: int, h: int, ry: int)
    requires 0 <= ry < h && 0 <= w
    ensures 0 <= ry * w && ry * w + w <= h * w
  {
    RowsApart(w, ry, h);
  }

  /** The map's row of a sheet, in the three variants of the C code. */
  method PaintRow(ids: array<byte>, s: View, row: int, brow: int, bx0: int, bx1: int)
    requires bx0 < bx1 ==> 0 <= row + bx0 && row + bx1 <= ids.Length
    requires bx0 < bx1 ==> 0 <= brow + bx0 && brow + bx1 <= |s.buf|
    modifies ids
    ensures RowPainted(s, row, brow, bx0, bx1, old(ids[..]), ids[..])
  {
    if s.inv == -1 {
      if s.x % 4 == 0 && bx0 % 4 == 0 && bx1 % 4 == 0 {
        FillWords(ids, row, bx0, bx1, s.sid);
      } else {
        FillBytes(ids, row, bx0, bx1, s.sid);
      }
    } else {
      FillKeyed(ids, row, bx0, bx1, s.sid, s.buf, brow, s.inv);
    }
  }

  /** One sheet painted over a part of the map. */
  ghost predicate Painted(s: View, xs: nat, ys: nat, r: Rect, was: seq<byte>, now: seq<byte>) {
    && |was| == |now|
    && forall x, y :: 0 <= x < xs && 0 <= y < ys ==>
         At(now, xs, x, y) == if Inside(r, x, y) && Opaque(s, x, y) then s.sid else At(was, xs, x, y)
  }

  method PaintSheet(ids: array<byte>, xsize: nat, ysize: nat, s: View, r: Rect)
    requires ids.Length == ysize * xsize && WellFormed(s)
    requires 0 <= r.x0 && 0 <= r.y0 && r.x1 <= xsize && r.y1 <= ysize
    modifies ids
    ensures Painted(s, xsize, ysize, r, old(ids[..]), ids[..])
  {
    ghost var was := ids[..];
    var bx0, by0 := Max(r.x0 - s.x, 0), Max(r.y0 - s.y, 0);
    var bx1, by1 := Min(r.x1 - s.x, s.w), Min(r.y1 - s.y, s.h);
    var ry := by0;
    while ry < by1
      invariant by0 == ry || by0 < ry <= by1
      invariant Painted(s, xsize, ysize, Rect(s.x + bx0, s.y + by0, s.x + bx1, s.y + ry), was, ids[..])
    {
      ghost var before := ids[..];
      var row, brow := (s.y + ry) * xsize + s.x, ry * s.w;
      if bx0 < bx1 {
        PixelIndex(xsize, ysize, s.x + bx0, s.y + ry);
        PixelIndex(xsize, ysize, s.x + bx1 - 1, s.y + ry);
        RowFitsBuffer(s.w, s.h, ry);
      }
      PaintRow(ids, s, row, brow, bx0, bx1);
      forall x, y | 0 <= x < xsize && 0 <= y < ysize
        ensures At(ids[..], xsize, x, y) ==
                if Inside(Rect(s.x + bx0, s.y + by0, s.x + bx1, s.y + ry + 1), x, y) && Opaque(s, x, y) then s.sid
                else At(was, xsize, x, y)
      {
        RowInPlane(s, xsize, ysize, ry, bx0, bx1, before, ids[..], x, y);
      }
      ry := ry + 1;
    }
  }

  /** The trailing loop of word rows stays on the sheet and on the screen row (see FirstColumn). */
  ghost predicate TailOk(s: View, r: Rect) {
    s.x % 4 == 0 ==>
      var first, last := FirstColumn(Max(r.x0 - s.x, 0), Min(r.x1 - s.x, s.w)), Min(r.x1 - s.x, s.w);
      first < last ==> 0 <= first && 0 <= s.x + first
  }

  /**
   * Tails are safe for sheets whose width is a multiple of 4 and that are not wholly left of the screen,
   * when the refreshed part of the screen is at least 3 wide or ends at a multiple of 4.
   */
  lemma TailOkWhen(s: View, r: Rect)
    requires s.w % 4 == 0 && s.w > 0 && s.x + s.w > 0
    requires 0 <= r.x0 < r.x1 && (r.x1 - r.x0 >= 3 || r.x1 % 4 == 0)
    ensures TailOk(s, r)
  {
    if s.x % 4 == 0 {
      TailStays(Max(r.x0 - s.x, 0), Min(r.x1 - s.x, s.w));
    }
  }

  /** A span that is at least 3 wide, or begins or ends at a multiple of 4, is not left on the left. */
  lemma TailStays(bx0: int, bx1: int)
    requires bx1 - bx0 >= 3 || bx0 % 4 == 0 || bx1 % 4 == 0
    ensures bx0 < bx1 ==> FirstColumn(bx0, bx1) == bx0
  {
  }

  /** One sheet copied to the screen where the map gives the screen to it: everywhere in r, perhaps also beside it. */
  ghost predicate Copied(s: View, xs: nat, ys: nat, r: Rect, ids: seq<byte>, was: seq<byte>, now: seq<byte>) {
    && |was| == |now|
    && forall x, y :: 0 <= x < xs && 0 <= y < ys ==>
         var mine := Spans(s, x, y) && At(ids, xs, x, y) == s.sid;
         && (mine && Inside(r, x, y) ==> At(now, xs, x, y) == Pixel(s, x, y))
         && (At(now, xs, x, y) == At(was, xs, x, y) || (mine && At(now, xs, x, y) == Pixel(s, x, y)))
  }

  lemma CopyInPlane(s: View, xs: nat, ys: nat, ry: int, bx0: int, bx1: int,
                    ids: seq<byte>, was: seq<byte>, now: seq<byte>, x: int, y: int)
    requires WellFormed(s) && |was| == |ids| == ys * xs && 0 <= x < xs && 0 <= y < ys && 0 <= ry < s.h
    requires bx0 < bx1 ==> 0 <= bx0 && bx1 <= s.w && 0 <= s.x + bx0 && s.x + bx1 <= xs
    requires bx0 < bx1 ==> 0 <= ry * s.w + bx0 && ry * s.w + bx1 <= |s.buf|
    requires now == ByteRow(ids, was, (s.y + ry) * xs + s.x, bx0, bx1, s.sid, s.buf, ry * s.w)
    ensures At(now, xs, x, y) ==
            if y == s.y + ry && bx0 <= x - s.x < bx1 && At(ids, xs, x, y) == s.sid then Pixel(s, x, y) else At(was, xs, x, y)
  {
    PixelIndex(xs, ys, x, y);
    RowsApart(xs, y, s.y + ry);
    RowsApart(xs, s.y + ry, y);
  }

  /** The first column that the copy of a row touches. */
  function Leftmost(s: View, bx0: int, bx1: int): int {
    if s.x % 4 == 0 then FirstColumn(bx0, bx1) else bx0
  }

  method CopyRow(ids: array<byte>, vram: array<byte>, xsize: nat, ysize: nat, s: View, ry: int, bx0: int, bx1: int)
    requires ids != vram && ids.Length == vram.Length == ysize * xsize && WellFormed(s)
    requires 0 <= ry < s.h && 0 <= s.y + ry < ysize
    requires 0 <= bx0 && bx1 <= s.w && s.x + bx1 <= xsize
    requires Leftmost(s, bx0, bx1) < bx1 ==>
               0 <= Leftmost(s, bx0, bx1) && 0 <= s.x + Leftmost(s, bx0, bx1)
    modifies vram
    ensures forall x, y :: 0 <= x < xsize && 0 <= y < ysize ==>
              At(vram[..], xsize, x, y) ==
                if y == s.y + ry && Leftmost(s, bx0, bx1) <= x - s.x < bx1 && At(ids[..], xsize, x, y) == s.sid
                then Pixel(s, x, y) else At(old(vram[..]), xsize, x, y)
  {
    ghost var was, first := vram[..], Leftmost(s, bx0, bx1);
    var row, brow := (s.y + ry) * xsize + s.x, ry * s.w;
    if first < bx1 {
      PixelIndex(xsize, ysize, s.x + first, s.y + ry);
      PixelIndex(xsize, ysize, s.x + bx1 - 1, s.y + ry);
      RowFitsBuffer(s.w, s.h, ry);
    }
    if s.x % 4 == 0 {
      CopyWords(ids, vram, row, bx0, bx1, s.sid, s.buf, brow);
    } else {
      CopyBytes(ids, vram, row, bx0, bx1, s.sid, s.buf, brow);
    }
    forall x, y | 0 <= x < xsize && 0 <= y < ysize
      ensures At(vram[..], xsize, x, y) ==
              if y == s.y + ry && first <= x - s.x < bx1 && At(ids[..], xsize, x, y) == s.sid then Pixel(s, x, y)
              else At(was, xsize, x, y)
    {
      CopyInPlane(s, xsize, ysize, ry, first, bx1, ids[..], was, vram[..], x, y);
    }
  }

  method CopySheet(ids: array<byte>, vram: array<byte>, xsize: nat, ysize: nat, s: View, r: Rect)
    requires ids != vram && ids.Length == vram.Length == ysize * xsize && WellFormed(s)
    requires 0 <= r.x0 && 0 <= r.y0 && r.x1 <= xsize && r.y1 <= ysize && TailOk(s, r)
    modifies vram
    ensures Copied(s, xsize, ysize, r, ids[..], old(vram[..]), vram[..])
  {
    ghost var was := vram[..];
    var bx0, by0 := Max(r.x0 - s.x, 0), Max(r.y0 - s.y, 0);
    var bx1, by1 := Min(r.x1 - s.x, s.w), Min(r.y1 - s.y, s.h);
    assert bx0 < bx1 ==> Leftmost(s, bx0, bx1) <= bx0;
    var ry := by0;
    while ry < by1
      invariant by0 == ry || by0 < ry <= by1
      invariant Copied(s, xsize, ysize, Rect(s.x + bx0, s.y + by0, s.x + bx1, s.y + ry), ids[..], was, vram[..])
    {
      CopyRow(ids, vram, xsize, ysize, s, ry, bx0, bx1);
      ry := ry + 1;
    }
  }
}
