/** The window compositor: the z-order, the owner map and the screen, all changed and repaired in place. */
module Compositor {
  import opened Basics
  import opened Scene
  import opened SheetPaint
  import opened SceneRepair
  import opened SheetRecords
  import opened ZOrder

  /** Word rows of these sheets stay on the sheet and on the screen when r is refreshed. */
  ghost predicate TailsOk(sheets: seq<View>, r: Rect, xs: nat, ys: nat) {
    forall k :: 0 <= k < |sheets| ==> TailOk(sheets[k], Clipped(r, xs, ys))
  }

  /** The height nearest to the request that there is: -1 to top + 1. */
  function Clamped(request: int, top: int): (r: int)
    requires top >= -1
    ensures -1 <= r <= top + 1
    ensures -1 <= request <= top + 1 ==> r == request
    ensures request > top + 1 ==> r == top + 1
    ensures request < -1 ==> r == -1
  {
    Max(Min(request, top + 1), -1)
  }

  /** Below its old height a lowered or hidden sheet leaves the order as it is. */
  lemma RestackedDown(stack: seq<View>, s: View, from: int, to: int)
    requires -1 <= to < from < |stack| && s == stack[from]
    ensures |Restacked(stack, s, from, to)| == |stack| - (if to < 0 then 1 else 0)
    ensures Restacked(stack, s, from, to)[to + 1..if to < 0 then from else from + 1] == stack[Max(to, 0)..from]
  {
    hide Restacked;
    RestackedSize(stack, s, from, to);
    forall h | to < h <= (if to < 0 then from - 1 else from)
      ensures Restacked(stack, s, from, to)[h] == stack[if to < 0 then h else h - 1]
    {
      RestackedAt(stack, s, from, to, h);
    }
    var part := Restacked(stack, s, from, to)[to + 1..if to < 0 then from else from + 1];
    assert forall k :: 0 <= k < |part| ==> part[k] == Restacked(stack, s, from, to)[to + 1 + k] == stack[Max(to, 0) + k];
  }

  lemma RestackedUp(stack: seq<View>, s: View, from: int, to: int)
    requires -1 <= from < |stack| && from < to <= (if from >= 0 then |stack| - 1 else |stack|)
    ensures to < |Restacked(stack, s, from, to)| && Restacked(stack, s, from, to)[to..to + 1] == [s]
  {
    RestackedAt(stack, s, from, to, to);
  }

  class SheetCtl {
    const xsize: nat
    const ysize: nat
    const ids: array<byte>       // map: which sheet owns each pixel
    const vram: array<byte>
    const sheets: array<nat>     // the z-order
    const sheets0: array<Sheet>  // the sheets themselves
    var top: int

    ghost predicate Valid()
      reads this, sheets, sheets0
    {
      && ids != vram && sheets as object != ids && sheets as object != vram && sheets as object != sheets0
      && ids.Length == vram.Length == ysize * xsize
      && sheets.Length == sheets0.Length == MAX_SHEETS
      && Ordered(sheets[..], sheets0[..], top)
      && Sized(sheets0[..])
    }

    constructor (screen: array<byte>, width: nat, height: nat)
      requires screen.Length == height * width
      ensures Valid() && Consistent() && top == -1 && vram == screen && xsize == width && ysize == height
      ensures fresh(ids) && fresh(sheets) && fresh(sheets0)
    {
      xsize, ysize, vram := width, height, screen;
      ids := new byte[height * width];
      sheets := new nat[MAX_SHEETS];
      sheets0 := new Sheet[MAX_SHEETS](_ => Sheet([], 0, 0, 0, 0, -1, -1, 0));
      top := -1;
    }

    ghost function V(id: nat): View
      reads sheets0
      requires id < sheets0.Length == MAX_SHEETS
    {
      ViewOf(id, sheets0[id])
    }

    /** What is shown, bottom to top. */
    ghost function Stack(): seq<View>
      reads this, sheets, sheets0
      requires Valid()
    {
      Shown(sheets[..], sheets0[..], top)
    }

    /** The owner map and the screen are as the sheets' records say. */
    ghost predicate Consistent()
      reads this, sheets, sheets0, ids, vram
      requires Valid()
    {
      Right(sheets0[..], xsize, ysize, ids[..], vram[..])
    }

    /** And so they agree with the naive painter. */
    lemma ConsistentIsShows()
      requires Valid()
      ensures Consistent() <==> Shows(Stack(), xsize, ysize, ids[..], vram[..])
    {
      RightIsShows(sheets[..], sheets0[..], top, xsize, ysize, ids[..], vram[..]);
    }

    /**
     * What that means for a pixel: where sheet k is the highest one whose rectangle holds the pixel with a colour
     * other than its transparent one, the map has k and the screen has that colour.
     */
    lemma PixelIsRight(k: nat, x: int, y: int)
      requires Valid() && Consistent() && 0 <= x < xsize && 0 <= y < ysize && k < MAX_SHEETS && sheets0[k].height >= 0
      requires sheets0[k].vx0 <= x < sheets0[k].vx0 + sheets0[k].bxsize && sheets0[k].vy0 <= y < sheets0[k].vy0 + sheets0[k].bysize
      requires var i := (y - sheets0[k].vy0) * sheets0[k].bxsize + x - sheets0[k].vx0;
               0 <= i < |sheets0[k].buf| && (sheets0[k].colInv == -1 || sheets0[k].buf[i] != sheets0[k].colInv)
      requires forall j :: 0 <= j < MAX_SHEETS && sheets0[j].height > sheets0[k].height ==>
                 || !(sheets0[j].vx0 <= x < sheets0[j].vx0 + sheets0[j].bxsize && sheets0[j].vy0 <= y < sheets0[j].vy0 + sheets0[j].bysize)
                 || (sheets0[j].colInv != -1 && (var i := (y - sheets0[j].vy0) * sheets0[j].bxsize + x - sheets0[j].vx0;
                                                 0 <= i < |sheets0[j].buf| && sheets0[j].buf[i] == sheets0[j].colInv))
      ensures 0 <= y * xsize + x < ids.Length && ids[y * xsize + x] == k
      ensures vram[y * xsize + x] == sheets0[k].buf[(y - sheets0[k].vy0) * sheets0[k].bxsize + x - sheets0[k].vx0]
    {
      hide Ordered, Sized, Right, TopSheet;
      PixelIndex(xsize, ysize, x, y);
      TopSheetIs(sheets0[..], 0, x, y, k);
      RightAt(sheets0[..], xsize, ysize, ids[..], vram[..], x, y, k);
    }

    /** The sheet at a height. */
    function SheetAt(h: nat): (s: View)
      reads this, sheets, sheets0
      requires Valid() && h <= top
      ensures WellFormed(s) && s == Stack()[h]
    {
      assert sheets[h] == sheets[..][h] && sheets0[sheets[h]] == sheets0[..][sheets[h]];
      ViewOf(sheets[h], sheets0[sheets[h]])
    }

    method RefreshMap(vx0: int, vy0: int, vx1: int, vy1: int, h0: int)
      requires Valid() && 0 <= h0 <= top + 1
      modifies ids
      ensures Valid() && Stack() == old(Stack())
      ensures Repainted(Stack()[h0..], xsize, ysize, Rect(vx0, vy0, vx1, vy1), old(ids[..]), ids[..])
      ensures MapRepainted(sheets0[..], h0, xsize, ysize, Rect(vx0, vy0, vx1, vy1), old(ids[..]), ids[..])
    {
      ghost var was, stack := ids[..], Stack();
      var r := Clipped(Rect(vx0, vy0, vx1, vy1), xsize, ysize);
      var h := h0;
      while h <= top
        invariant Valid() && Stack() == stack
        invariant h0 <= h <= top + 1
        invariant Repainted(stack[h0..h], xsize, ysize, r, was, ids[..])
      {
        RepaintAt(h, r, stack, h0, was);
        h := h + 1;
      }
      assert stack[h0..h] == stack[h0..];
      RepaintedRecords(sheets[..], sheets0[..], top, h0, xsize, ysize, Rect(vx0, vy0, vx1, vy1), was, ids[..]);
    }

    /** One sheet of a partial repaint. */
    method RepaintAt(h: nat, r: Rect, ghost stack: seq<View>, ghost h0: nat, ghost was: seq<byte>)
      requires Valid() && Stack() == stack && h0 <= h <= top
      requires 0 <= r.x0 && 0 <= r.y0 && r.x1 <= xsize && r.y1 <= ysize
      requires Repainted(stack[h0..h], xsize, ysize, r, was, ids[..])
      modifies ids
      ensures Valid() && Stack() == stack
      ensures Repainted(stack[h0..h + 1], xsize, ysize, r, was, ids[..])
    {
      ghost var mid := ids[..];
      var sht := SheetAt(h);
      PaintSheet(ids, xsize, ysize, sht, r);
      PaintedNext(stack[h0..h], stack[h], xsize, ysize, r, was, mid, ids[..]);
      assert stack[h0..h + 1] == stack[h0..h] + [stack[h]];
    }

    method RefreshSub(vx0: int, vy0: int, vx1: int, vy1: int, h0: int, h1: int)
      requires Valid() && 0 <= h0 <= h1 + 1 <= top + 1
      requires TailsOk(Stack()[h0..h1 + 1], Rect(vx0, vy0, vx1, vy1), xsize, ysize)
      modifies vram
      ensures Valid() && Stack() == old(Stack())
      ensures Redrawn(Stack()[h0..h1 + 1], xsize, ysize, Rect(vx0, vy0, vx1, vy1), ids[..], old(vram[..]), vram[..])
      ensures ScreenRedrawn(sheets0[..], h0, h1, xsize, ysize, Rect(vx0, vy0, vx1, vy1), ids[..], old(vram[..]), vram[..])
    {
      hide Redrawn, ScreenRedrawn;
      ghost var was, stack := vram[..], Stack();
      ShownDistinct(sheets[..], sheets0[..], top);
      var r := Clipped(Rect(vx0, vy0, vx1, vy1), xsize, ysize);
      var h := h0;
      NoneRedrawn(xsize, ysize, r, ids[..], was);
      assert stack[h0..h0] == [];
      while h <= h1
        invariant h0 <= h <= h1 + 1 && ids[..] == old(ids[..]) && InRedraw(stack, h0, h, r, was)
      {
        assert stack[h] == stack[h0..h1 + 1][h - h0];
        RedrawAt(h, r, stack, h0, was);
        h := h + 1;
      }
      RedrawnClipped(stack[h0..h], xsize, ysize, Rect(vx0, vy0, vx1, vy1), ids[..], was, vram[..]);
      RedrawnRecords(sheets[..], sheets0[..], top, h0, h1, xsize, ysize, Rect(vx0, vy0, vx1, vy1), ids[..], was, vram[..]);
    }

    /** The sheets from h0 to below h have been redrawn in r. */
    ghost predicate InRedraw(stack: seq<View>, h0: nat, h: nat, r: Rect, was: seq<byte>)
      reads this, sheets, sheets0, ids, vram
    {
      && Valid() && Stack() == stack && Distinct(stack) && h0 <= h <= top + 1
      && 0 <= r.x0 && 0 <= r.y0 && r.x1 <= xsize && r.y1 <= ysize
      && Redrawn(stack[h0..h], xsize, ysize, r, ids[..], was, vram[..])
    }

    /** One sheet of a partial redraw. */
    method RedrawAt(h: nat, r: Rect, ghost stack: seq<View>, ghost h0: nat, ghost was: seq<byte>)
      requires InRedraw(stack, h0, h, r, was) && h <= top && TailOk(stack[h], r)
      modifies vram
      ensures InRedraw(stack, h0, h + 1, r, was) && ids[..] == old(ids[..])
    {
      ghost var mid := vram[..];
      var sht := SheetAt(h);
      CopySheet(ids, vram, xsize, ysize, sht, r);
      DistinctSlice(stack, h0, h);
      RedrawnNext(stack[h0..h], stack[h], xsize, ysize, r, ids[..], was, mid, vram[..]);
    }

    /** The map of a sheet's area from height h0 up, then the screen from h1 to h2. */
    method Repair(id: nat, h0: int, h1: int, h2: int)
      requires Valid() && id < MAX_SHEETS && 0 <= h0 <= top + 1 && 0 <= h1 <= h2 + 1 <= top + 1
      requires TailsOk(Stack()[h1..h2 + 1], Area(V(id)), xsize, ysize)
      modifies ids, vram
      ensures Valid() && Stack() == old(Stack())
      ensures Repainted(Stack()[h0..], xsize, ysize, Area(V(id)), old(ids[..]), ids[..])
      ensures Redrawn(Stack()[h1..h2 + 1], xsize, ysize, Area(V(id)), ids[..], old(vram[..]), vram[..])
    {
      hide Repainted, Redrawn, MapRepainted, ScreenRedrawn, TailsOk, Ordered, Sized, Shown;
      var s := sheets0[id];
      assert Area(V(id)) == Rect(s.vx0, s.vy0, s.vx0 + s.bxsize, s.vy0 + s.bysize);
      RefreshMap(s.vx0, s.vy0, s.vx0 + s.bxsize, s.vy0 + s.bysize, h0);
      RefreshSub(s.vx0, s.vy0, s.vx0 + s.bxsize, s.vy0 + s.bysize, h1, h2);
    }

    // ---- sheet_updown, branch by branch ----

    /** The sheets that a move of sheet id to height `to` copies to the screen: those it uncovers, or itself. */
    ghost function Copied(id: nat, to: int): seq<View>
      reads this, sheets, sheets0
      requires Valid() && id < MAX_SHEETS && to >= -1
    {
      var from := sheets0[..][id].height;
      if to < from then Stack()[Max(to, 0)..from] else if to > from then [V(id)] else []
    }

    method MoveDown(id: nat, to: int)
      requires Valid() && Consistent() && id < MAX_SHEETS && 0 <= to < sheets0[id].height
      requires TailsOk(Copied(id, to), Area(V(id)), xsize, ysize)
      modifies sheets, sheets0, ids, vram
      ensures Valid() && Consistent() && sheets0[id].height == to
      ensures Stack() == old(Restacked(Stack(), V(id), sheets0[id].height, to))
      ensures SameButHeights(old(sheets0[..]), sheets0[..]) && OthersKeepOrder(old(sheets0[..]), sheets0[..], id)
    {
      hide Right, Shows, Repainted, Redrawn, MapRepainted, ScreenRedrawn, OthersKeepOrder, SameButHeights, TailsOk, Ordered, Sized;
      ghost var z, recs, stack, was, shown := sheets[..], sheets0[..], Stack(), ids[..], vram[..];
      var from := sheets0[id].height;
      HeightsEnd(sheets[..], sheets0[..], top, id);
      ConsistentIsShows();
      Lower(sheets, sheets0, top, id, to);
      MovedAll(z, recs, top, id, to, sheets[..], sheets0[..]);
      RestackedDown(stack, stack[from], from, to);
      Repair(id, to + 1, to + 1, from);
      DownRepairs(stack, Stack(), from, to, xsize, ysize, was, ids[..], shown, vram[..]);
      ConsistentIsShows();
    }

    method TakeOut(id: nat)
      requires Valid() && Consistent() && id < MAX_SHEETS && 0 <= sheets0[id].height
      requires TailsOk(Copied(id, -1), Area(V(id)), xsize, ysize)
      modifies sheets, sheets0, this`top, ids, vram
      ensures Valid() && Consistent() && sheets0[id].height == -1
      ensures Stack() == old(Restacked(Stack(), V(id), sheets0[id].height, -1))
      ensures SameButHeights(old(sheets0[..]), sheets0[..]) && OthersKeepOrder(old(sheets0[..]), sheets0[..], id)
    {
      hide Right, Shows, Repainted, Redrawn, MapRepainted, ScreenRedrawn, OthersKeepOrder, SameButHeights, TailsOk;
      ghost var z, recs, stack, was, shown := sheets[..], sheets0[..], Stack(), ids[..], vram[..];
      var from := sheets0[id].height;
      ConsistentIsShows();
      Hide(sheets, sheets0, top, id);
      MovedAll(z, recs, top, id, -1, sheets[..], sheets0[..]);
      top := top - 1;
      ghost var after := Restacked(stack, stack[from], from, -1);
      assert Valid() && Stack() == after;
      RestackedDown(stack, stack[from], from, -1);
      Repair(id, 0, 0, from - 1);
      OutRepairs(stack, after, from, xsize, ysize, was, ids[..], shown, vram[..]);
      ConsistentIsShows();
    }

    method MoveUp(id: nat, to: int)
      requires Valid() && Consistent() && id < MAX_SHEETS && 0 <= sheets0[id].height < to <= top
      requires TailsOk(Copied(id, to), Area(V(id)), xsize, ysize)
      modifies sheets, sheets0, ids, vram
      ensures Valid() && Consistent() && sheets0[id].height == to
      ensures Stack() == old(Restacked(Stack(), V(id), sheets0[id].height, to))
      ensures SameButHeights(old(sheets0[..]), sheets0[..]) && OthersKeepOrder(old(sheets0[..]), sheets0[..], id)
    {
      hide Right, Shows, Repainted, Redrawn, MapRepainted, ScreenRedrawn, OthersKeepOrder, SameButHeights, TailsOk;
      ghost var z, recs, stack, was, shown := sheets[..], sheets0[..], Stack(), ids[..], vram[..];
      ConsistentIsShows();
      Raise(sheets, sheets0, top, id, to);
      MovedAll(z, recs, top, id, to, sheets[..], sheets0[..]);
      RestackedUp(stack, V(id), recs[id].height, to);
      Repair(id, to, to, to);
      UpRepairs(stack, Stack(), ViewOf(id, recs[id]), recs[id].height, to, xsize, ysize, was, ids[..], shown, vram[..]);
      ConsistentIsShows();
    }

    method PutIn(id: nat, to: int)
      requires Valid() && Consistent() && id < MAX_SHEETS && sheets0[id].height == -1 && 0 <= to <= top + 1
      requires TailsOk(Copied(id, to), Area(V(id)), xsize, ysize)
      modifies sheets, sheets0, this`top, ids, vram
      ensures Valid() && Consistent() && sheets0[id].height == to
      ensures Stack() == old(Restacked(Stack(), V(id), -1, to))
      ensures SameButHeights(old(sheets0[..]), sheets0[..]) && OthersKeepOrder(old(sheets0[..]), sheets0[..], id)
    {
      hide Right, Shows, Repainted, Redrawn, MapRepainted, ScreenRedrawn, OthersKeepOrder, SameButHeights, TailsOk, Ordered, Sized;
      ghost var z, recs, stack, was, shown := sheets[..], sheets0[..], Stack(), ids[..], vram[..];
      ConsistentIsShows();
      RoomForHidden(sheets[..], sheets0[..], top, id);
      Show(sheets, sheets0, top, id, to);
      MovedAll(z, recs, top, id, to, sheets[..], sheets0[..]);
      top := top + 1;
      RestackedUp(stack, V(id), -1, to);
      Repair(id, to, to, to);
      UpRepairs(stack, Stack(), ViewOf(id, recs[id]), -1, to, xsize, ysize, was, ids[..], shown, vram[..]);
      ConsistentIsShows();
    }

    /**
     * Any sheet to any height. A sheet that is shown may go no higher than top: the clamp lets
     * top + 1 through, which is right only for a hidden sheet.
     */
    method UpDown(id: nat, request: int)
      requires Valid() && Consistent() && id < MAX_SHEETS
      requires TailsOk(Copied(id, Clamped(request, top)), Area(V(id)), xsize, ysize)
      requires sheets0[id].height >= 0 ==> request <= top
      modifies sheets, sheets0, this`top, ids, vram
      ensures Valid() && Consistent()
      ensures -1 <= request <= old(top) + 1 ==> sheets0[id].height == request
      ensures request > old(top) + 1 ==> sheets0[id].height == old(top) + 1
      ensures request < -1 ==> sheets0[id].height == -1
      ensures Stack() == old(Restacked(Stack(), V(id), sheets0[id].height, Clamped(request, top)))
      ensures SameButHeights(old(sheets0[..]), sheets0[..]) && OthersKeepOrder(old(sheets0[..]), sheets0[..], id)
    {
      hide Right, OthersKeepOrder, SameButHeights, TailsOk, Restacked;
      var from := sheets0[id].height;
      var height := request;
      if height > top + 1 {
        height := top + 1;
      }
      if height < -1 {
        height := -1;
      }
      assert height == Clamped(request, top);
      if from > height {
        if height >= 0 {
          MoveDown(id, height);
        } else {
          TakeOut(id);
        }
      } else if from < height {
        if from >= 0 {
          MoveUp(id, height);
        } else {
          PutIn(id, height);
        }
      } else {
        StaysPut(Stack(), V(id), from);
        SameOrder(sheets0[..], id);
      }
    }

    /** A sheet to another place on the screen. */
    method Slide(id: nat, vx0: int, vy0: int)
      requires Valid() && Consistent() && id < MAX_SHEETS
      requires sheets0[id].height >= 0 ==>
                 var s := V(id).(x := vx0, y := vy0);
                 TailsOk(Stack()[..sheets0[id].height], Area(V(id)), xsize, ysize) && TailsOk([s], Area(s), xsize, ysize)
      modifies sheets0, ids, vram
      ensures Valid() && Consistent()
      ensures sheets0[..] == old(sheets0[..])[id := old(sheets0[id]).(vx0 := vx0, vy0 := vy0)]
      ensures Stack() == if sheets0[id].height >= 0 then old(Stack())[sheets0[id].height := V(id)] else old(Stack())
    {
      hide Right, Shows, TailsOk;
      ghost var recs, stack, was, shown := sheets0[..], Stack(), ids[..], vram[..];
      var s := sheets0[id];
      ConsistentIsShows();
      Replaced(sheets[..], recs, top, id, s.(vx0 := vx0, vy0 := vy0));
      sheets0[id] := s.(vx0 := vx0, vy0 := vy0);
      ConsistentIsShows();
      if s.height >= 0 {
        RepairSlid(stack, s.height, s.vx0, s.vy0, s.bxsize, s.bysize, vx0, vy0);
      }
    }

    /** Four repairs after the sheet at height h has slid: its old area from the bottom up, its new area from itself up. */
    method RepairSlid(ghost before: seq<View>, h: nat, oldX: int, oldY: int, w: int, d: int, newX: int, newY: int)
      requires Valid() && h <= top && |before| == top + 1 && Stack() == before[h := Stack()[h]]
      requires Shows(before, xsize, ysize, ids[..], vram[..]) && before[h].sid == Stack()[h].sid
      requires Area(before[h]) == Rect(oldX, oldY, oldX + w, oldY + d)
      requires Area(Stack()[h]) == Rect(newX, newY, newX + w, newY + d)
      requires TailsOk(before[..h], Area(before[h]), xsize, ysize)
      requires TailsOk([Stack()[h]], Area(Stack()[h]), xsize, ysize)
      modifies ids, vram
      ensures Valid() && Consistent() && Stack() == old(Stack())
    {
      ghost var after, was, shown := Stack(), ids[..], vram[..];
      ShownDistinct(sheets[..], sheets0[..], top);
      assert after[..h] == before[..h];
      RefreshMap(oldX, oldY, oldX + w, oldY + d, 0);
      ghost var mid := ids[..];
      RefreshMap(newX, newY, newX + w, newY + d, h);
      ghost var half := RedrawSlid(h, Rect(oldX, oldY, oldX + w, oldY + d), Rect(newX, newY, newX + w, newY + d));
      SlideRepairsAt(before, after, h, after[h], xsize, ysize, was, mid, ids[..], shown, half, vram[..]);
      ConsistentIsShows();
    }

    method RedrawSlid(h: nat, left: Rect, entered: Rect) returns (ghost half: seq<byte>)
      requires Valid() && h <= top
      requires TailsOk(Stack()[..h], left, xsize, ysize) && TailsOk([Stack()[h]], entered, xsize, ysize)
      modifies vram
      ensures Valid() && Stack() == old(Stack()) && ids[..] == old(ids[..])
      ensures Redrawn(Stack()[..h], xsize, ysize, left, ids[..], old(vram[..]), half)
      ensures Redrawn(Stack()[h..h + 1], xsize, ysize, entered, ids[..], half, vram[..])
    {
      assert Stack()[0..h] == Stack()[..h];
      RefreshSub(left.x0, left.y0, left.x1, left.y1, 0, h - 1);
      assert Stack()[0..h] == Stack()[..h] && Stack()[h..h + 1] == [Stack()[h]];
      half := vram[..];
      RefreshSub(entered.x0, entered.y0, entered.x1, entered.y1, h, h);
    }

    /** A sheet gets its buffer. The screen stays right if the sheet is hidden; a shown one must be drawn. */
    method SetBuf(id: nat, buf: seq<byte>, w: nat, h: nat, colInv: int)
      requires Valid() && id < MAX_SHEETS && |buf| == h * w
      modifies sheets0
      ensures Valid() && (old(Consistent()) && sheets0[id].height == -1 ==> Consistent())
      ensures Stack() == if sheets0[id].height >= 0 then old(Stack())[sheets0[id].height := V(id)] else old(Stack())
      ensures sheets0[..] == old(sheets0[..])[id := old(sheets0[id]).(buf := buf, bxsize := w, bysize := h, colInv := colInv)]
    {
      var s := sheets0[id].(buf := buf, bxsize := w, bysize := h, colInv := colInv);
      ConsistentIsShows();
      Replaced(sheets[..], sheets0[..], top, id, s);
      sheets0[id] := s;
      ConsistentIsShows();
    }

    /** A sheet is given back; if it was shown it goes away first. */
    method Free(id: nat)
      requires Valid() && Consistent() && id < MAX_SHEETS && TailsOk(Copied(id, -1), Area(V(id)), xsize, ysize)
      modifies sheets, sheets0, this`top, ids, vram
      ensures Valid() && Consistent() && sheets0[id].height == -1 && sheets0[id].flags == 0
      ensures SameButHeights(old(sheets0[..])[id := old(sheets0[id]).(flags := 0)], sheets0[..])
      ensures Stack() == old(Restacked(Stack(), V(id), sheets0[id].height, -1))
    {
      ghost var recs := sheets0[..];
      StaysPut(Stack(), V(id), -1);
      assert Clamped(-1, top) == -1;
      if sheets0[id].height >= 0 {
        UpDown(id, -1);
      }
      SameButFlags(recs, sheets0[..], id);
      MarkUnused(id);
    }

    method MarkUnused(id: nat)
      requires Valid() && Consistent() && id < MAX_SHEETS && sheets0[id].height == -1
      modifies sheets0
      ensures Valid() && Consistent() && Stack() == old(Stack())
      ensures sheets0[..] == old(sheets0[..])[id := old(sheets0[id]).(flags := 0)]
    {
      var s := sheets0[id].(flags := 0);
      ConsistentIsShows();
      Replaced(sheets[..], sheets0[..], top, id, s);
      sheets0[id] := s;
      ConsistentIsShows();
    }

    /** The screen is wrong at most where sheet id owns pixels of the given part of it: redrawing that part is enough. */
    method Refresh(id: nat, bx0: int, by0: int, bx1: int, by1: int)
      requires Valid() && id < MAX_SHEETS
      requires var s := V(id); TailsOk([s], Rect(s.x + bx0, s.y + by0, s.x + bx1, s.y + by1), xsize, ysize)
      requires forall x, y :: 0 <= x < xsize && 0 <= y < ysize && Owner(Stack(), x, y).Some? ==>
                 var o := Owner(Stack(), x, y).value;
                 && At(ids[..], xsize, x, y) == o.sid
                 && (At(vram[..], xsize, x, y) == Pixel(o, x, y) || (o == V(id) && bx0 <= x - o.x < bx1 && by0 <= y - o.y < by1))
      modifies vram
      ensures Valid() && Consistent() && Stack() == old(Stack())
    {
      hide Right, Redrawn, ScreenRedrawn;
      var s := sheets0[id];
      ghost var stack, was := Stack(), vram[..];
      ghost var r := Rect(s.vx0 + bx0, s.vy0 + by0, s.vx0 + bx1, s.vy0 + by1);
      ShownDistinct(sheets[..], sheets0[..], top);
      if s.height >= 0 {
        assert stack[s.height] == V(id);
        assert stack[s.height..s.height + 1] == [V(id)];
        RefreshSub(s.vx0 + bx0, s.vy0 + by0, s.vx0 + bx1, s.vy0 + by1, s.height, s.height);
        RefreshShows(stack, V(id), xsize, ysize, r, ids[..], was, vram[..]);
      } else {
        NotShown(sheets[..], sheets0[..], top, id);
      }
      ConsistentIsShows();
    }
  }
}
