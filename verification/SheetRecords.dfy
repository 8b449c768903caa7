/** What map and screen should hold, told by the records of the sheets alone. */
module SheetRecords {
  import opened Arith
  import opened Basics
  import opened Scene
  import opened SheetPaint
  import opened SceneRepair
  import opened ZOrder

  /** The pixel is on the sheet. */
  predicate OnSheet(s: Sheet, x: int, y: int) {
    s.vx0 <= x < s.vx0 + s.bxsize && s.vy0 <= y < s.vy0 + s.bysize
  }

  /** The sheet's colour at a pixel on it. */
  function ColourAt(s: Sheet, x: int, y: int): byte {
    var i := (y - s.vy0) * s.bxsize + (x - s.vx0);
    if 0 <= i < |s.buf| then s.buf[i] else 0
  }

  /** The pixel is on the sheet, and not of its transparent colour. */
  predicate Paints(s: Sheet, x: int, y: int) {
    OnSheet(s, x, y) && (s.colInv == -1 || ColourAt(s, x, y) != s.colInv)
  }

  /** Of the sheets at h0 and above, the k-th is the highest that paints the pixel. */
  ghost predicate TopSheet(recs: seq<Sheet>, h0: nat, x: int, y: int, k: int) {
    && 0 <= k < |recs| && h0 <= recs[k].height && Paints(recs[k], x, y)
    && forall j :: 0 <= j < |recs| && recs[k].height < recs[j].height ==> !Paints(recs[j], x, y)
  }

  /** Spelt out in the fields of the records. */
  lemma TopSheetIs(recs: seq<Sheet>, h0: nat, x: int, y: int, k: nat)
    requires Sized(recs) && k < MAX_SHEETS
    ensures TopSheet(recs, h0, x, y, k) <==>
            && recs[k].height >= h0
            && recs[k].vx0 <= x < recs[k].vx0 + recs[k].bxsize && recs[k].vy0 <= y < recs[k].vy0 + recs[k].bysize
            && (recs[k].colInv == -1 || (var i := (y - recs[k].vy0) * recs[k].bxsize + x - recs[k].vx0;
                                         0 <= i < |recs[k].buf| && recs[k].buf[i] != recs[k].colInv))
            && forall j :: 0 <= j < MAX_SHEETS && recs[j].height > recs[k].height ==>
                 || !(recs[j].vx0 <= x < recs[j].vx0 + recs[j].bxsize && recs[j].vy0 <= y < recs[j].vy0 + recs[j].bysize)
                 || (recs[j].colInv != -1 && (var i := (y - recs[j].vy0) * recs[j].bxsize + x - recs[j].vx0;
                                              0 <= i < |recs[j].buf| && recs[j].buf[i] == recs[j].colInv))
  {
    forall j | 0 <= j < MAX_SHEETS && OnSheet(recs[j], x, y)
      ensures 0 <= (y - recs[j].vy0) * recs[j].bxsize + x - recs[j].vx0 < |recs[j].buf|
    {
      InBuffer(j, recs[j], x, y);
    }
  }

  lemma InBuffer(id: byte, s: Sheet, x: int, y: int)
    requires WellFormed(ViewOf(id, s)) && OnSheet(s, x, y)
    ensures 0 <= (y - s.vy0) * s.bxsize + x - s.vx0 < |s.buf|
  {
    RowFitsBuffer(s.bxsize, s.bysize, y - s.vy0);
  }

  lemma SameOpaque(id: byte, s: Sheet, x: int, y: int)
    ensures Opaque(ViewOf(id, s), x, y) <==> Paints(s, x, y)
    ensures Spans(ViewOf(id, s), x, y) <==> OnSheet(s, x, y)
    ensures Pixel(ViewOf(id, s), x, y) == ColourAt(s, x, y) && ViewOf(id, s).sid == id
  {
  }

  /** The naive painter's owner is the sheet that the records call the top one. */
  lemma OwnerIsTopSheet(z: seq<nat>, recs: seq<Sheet>, top: int, h0: nat, x: int, y: int, k: nat)
    requires Ordered(z, recs, top) && h0 <= top + 1 && k < MAX_SHEETS
    ensures TopSheet(recs, h0, x, y, k) <==>
            recs[k].height >= h0 && Owner(Shown(z, recs, top)[h0..], x, y) == Some(ViewOf(k, recs[k]))
  {
    var stack := Shown(z, recs, top)[h0..];
    OwnerIsTopmost(stack, x, y, ViewOf(k, recs[k]));
    if recs[k].height >= h0 {
      var h := recs[k].height - h0;
      ShownAt(z, recs, top, recs[k].height);
      TopByHeight(z, recs, top, h0, x, y, k);
      if h' :| TopmostAt(stack, x, y, h') && stack[h'] == ViewOf(k, recs[k]) {
        ShownAt(z, recs, top, h0 + h');
        SameOpaque(z[h0 + h'], recs[z[h0 + h']], x, y);
        SameOpaque(k, recs[k], x, y);
      }
    }
  }

  lemma TopByHeight(z: seq<nat>, recs: seq<Sheet>, top: int, h0: nat, x: int, y: int, k: nat)
    requires Ordered(z, recs, top) && h0 <= top + 1 && k < MAX_SHEETS && h0 <= recs[k].height
    ensures TopSheet(recs, h0, x, y, k) <==> TopmostAt(Shown(z, recs, top)[h0..], x, y, recs[k].height - h0)
  {
    var stack, h := Shown(z, recs, top)[h0..], recs[k].height - h0;
    forall g | 0 <= g < |stack| ensures Opaque(stack[g], x, y) <==> Paints(recs[z[h0 + g]], x, y) {
      ShownAt(z, recs, top, h0 + g);
      SameOpaque(z[h0 + g], recs[z[h0 + g]], x, y);
    }
    forall j | 0 <= j < MAX_SHEETS && recs[j].height > recs[k].height
      ensures h0 + h < recs[j].height <= top && z[recs[j].height] == j
    {
    }
    if TopSheet(recs, h0, x, y, k) {
      forall g | h < g < |stack| ensures !Opaque(stack[g], x, y) {
        assert recs[z[h0 + g]].height == h0 + g;
      }
    }
    if TopmostAt(stack, x, y, h) {
      forall j | 0 <= j < MAX_SHEETS && recs[k].height < recs[j].height ensures !Paints(recs[j], x, y) {
        assert !Opaque(stack[recs[j].height - h0], x, y);
      }
    }
  }

  /** The owner, if there is one, is the sheet of some record. */
  lemma OwnerHasRecord(z: seq<nat>, recs: seq<Sheet>, top: int, h0: nat, x: int, y: int) returns (k: nat)
    requires Ordered(z, recs, top) && h0 <= top + 1 && Owner(Shown(z, recs, top)[h0..], x, y).Some?
    ensures k < MAX_SHEETS && TopSheet(recs, h0, x, y, k) && Owner(Shown(z, recs, top)[h0..], x, y) == Some(ViewOf(k, recs[k]))
  {
    var h := OwnerMember(Shown(z, recs, top)[h0..], x, y);
    ShownAt(z, recs, top, h0 + h);
    k := z[h0 + h];
    OwnerIsTopSheet(z, recs, top, h0, x, y, k);
  }

  /** At every pixel the map names the top sheet, if there is one, and the screen has its colour. */
  ghost predicate Right(recs: seq<Sheet>, xs: nat, ys: nat, ids: seq<byte>, vram: seq<byte>) {
    forall x, y, k :: 0 <= x < xs && 0 <= y < ys && TopSheet(recs, 0, x, y, k) ==>
      At(ids, xs, x, y) == k && At(vram, xs, x, y) == ColourAt(recs[k], x, y)
  }

  lemma RightAt(recs: seq<Sheet>, xs: nat, ys: nat, ids: seq<byte>, vram: seq<byte>, x: int, y: int, k: int)
    requires Right(recs, xs, ys, ids, vram) && 0 <= x < xs && 0 <= y < ys && TopSheet(recs, 0, x, y, k)
    ensures At(ids, xs, x, y) == k && At(vram, xs, x, y) == ColourAt(recs[k], x, y)
  {
  }

  /** That is agreement with the naive painter. */
  lemma RightIsShows(z: seq<nat>, recs: seq<Sheet>, top: int, xs: nat, ys: nat, ids: seq<byte>, vram: seq<byte>)
    requires Ordered(z, recs, top)
    ensures Right(recs, xs, ys, ids, vram) <==> Shows(Shown(z, recs, top), xs, ys, ids, vram)
  {
    var stack := Shown(z, recs, top);
    assert stack[0..] == stack;
    if Right(recs, xs, ys, ids, vram) {
      forall x, y | 0 <= x < xs && 0 <= y < ys && Owner(stack, x, y).Some?
        ensures At(ids, xs, x, y) == Owner(stack, x, y).value.sid
        ensures At(vram, xs, x, y) == Pixel(Owner(stack, x, y).value, x, y)
      {
        var k := OwnerHasRecord(z, recs, top, 0, x, y);
        SameOpaque(k, recs[k], x, y);
      }
    }
    if Shows(stack, xs, ys, ids, vram) {
      forall x, y, k | 0 <= x < xs && 0 <= y < ys && TopSheet(recs, 0, x, y, k)
        ensures At(ids, xs, x, y) == k && At(vram, xs, x, y) == ColourAt(recs[k], x, y)
      {
        OwnerIsTopSheet(z, recs, top, 0, x, y, k);
        SameOpaque(k, recs[k], x, y);
      }
    }
  }

  /** The map repainted from height h0 up within r. */
  ghost predicate MapRepainted(recs: seq<Sheet>, h0: nat, xs: nat, ys: nat, r: Rect, was: seq<byte>, now: seq<byte>) {
    && (forall x, y, k :: 0 <= x < xs && 0 <= y < ys && r.x0 <= x < r.x1 && r.y0 <= y < r.y1 && TopSheet(recs, h0, x, y, k) ==>
          At(now, xs, x, y) == k)
    && (forall x, y :: 0 <= x < xs && 0 <= y < ys && !(r.x0 <= x < r.x1 && r.y0 <= y < r.y1) ==>
          At(now, xs, x, y) == At(was, xs, x, y))
    && (forall x, y :: 0 <= x < xs && 0 <= y < ys && (forall k :: !TopSheet(recs, h0, x, y, k)) ==>
          At(now, xs, x, y) == At(was, xs, x, y))
  }

  lemma RepaintedRecords(z: seq<nat>, recs: seq<Sheet>, top: int, h0: nat, xs: nat, ys: nat, r: Rect, was: seq<byte>, now: seq<byte>)
    requires Ordered(z, recs, top) && h0 <= top + 1 && Repainted(Shown(z, recs, top)[h0..], xs, ys, r, was, now)
    ensures MapRepainted(recs, h0, xs, ys, r, was, now)
  {
    forall x, y, k | 0 <= x < xs && 0 <= y < ys && r.x0 <= x < r.x1 && r.y0 <= y < r.y1 && TopSheet(recs, h0, x, y, k)
      ensures At(now, xs, x, y) == k
    {
      OwnerIsTopSheet(z, recs, top, h0, x, y, k);
      SameOpaque(k, recs[k], x, y);
    }
    forall x, y | 0 <= x < xs && 0 <= y < ys && forall k :: !TopSheet(recs, h0, x, y, k)
      ensures At(now, xs, x, y) == At(was, xs, x, y)
    {
      if Owner(Shown(z, recs, top)[h0..], x, y).Some? {
        var k := OwnerHasRecord(z, recs, top, h0, x, y);
      }
    }
  }

  /** The sheets of heights h0 to h1 redrawn where the map names them: everywhere in r, perhaps also beside it. */
  ghost predicate ScreenRedrawn(recs: seq<Sheet>, h0: int, h1: int, xs: nat, ys: nat, r: Rect, ids: seq<byte>, was: seq<byte>, now: seq<byte>)
    requires |recs| == MAX_SHEETS
  {
    && (forall x, y :: 0 <= x < xs && 0 <= y < ys && r.x0 <= x < r.x1 && r.y0 <= y < r.y1 ==>
          var s := recs[At(ids, xs, x, y)];
          h0 <= s.height <= h1 && OnSheet(s, x, y) ==> At(now, xs, x, y) == ColourAt(s, x, y))
    && (forall x, y :: 0 <= x < xs && 0 <= y < ys && At(now, xs, x, y) != At(was, xs, x, y) ==>
          var s := recs[At(ids, xs, x, y)];
          h0 <= s.height <= h1 && OnSheet(s, x, y) && At(now, xs, x, y) == ColourAt(s, x, y))
  }

  lemma NamedIsRecord(z: seq<nat>, recs: seq<Sheet>, top: int, h0: nat, h1: int, id: byte, x: int, y: int)
    requires Ordered(z, recs, top) && h0 <= h1 + 1 <= top + 1
    ensures var o, s := Named(Shown(z, recs, top)[h0..h1 + 1], id, x, y), recs[id];
            if h0 <= s.height <= h1 && OnSheet(s, x, y) then o == Some(ViewOf(id, s)) else o.None?
  {
    hide Named, OnSheet, Paints, Spans, Opaque, Distinct;
    var list, s := Shown(z, recs, top)[h0..h1 + 1], recs[id];
    ShownDistinct(z, recs, top);
    if h0 <= s.height <= h1 && OnSheet(s, x, y) {
      ShownAt(z, recs, top, s.height);
      SameOpaque(id, s, x, y);
      assert list[s.height - h0] == ViewOf(id, s);
      NamedAt(list, s.height - h0, x, y);
    }
    if Named(list, id, x, y).Some? {
      NamedIn(list, id, x, y);
      NamedSpans(list, id, x, y);
      var k :| 0 <= k < |list| && list[k] == Named(list, id, x, y).value && list[k].sid == id;
      ShownAt(z, recs, top, h0 + k);
      SameOpaque(z[h0 + k], recs[z[h0 + k]], x, y);
    }
  }

  lemma {:induction false} NamedSpans(list: seq<View>, id: byte, x: int, y: int)
    requires Named(list, id, x, y).Some?
    ensures Spans(Named(list, id, x, y).value, x, y)
  {
    var n := |list| - 1;
    if !(list[n].sid == id && Spans(list[n], x, y)) {
      NamedSpans(list[..n], id, x, y);
    }
  }

  lemma RedrawnRecords(z: seq<nat>, recs: seq<Sheet>, top: int, h0: nat, h1: int, xs: nat, ys: nat, r: Rect,
                       ids: seq<byte>, was: seq<byte>, now: seq<byte>)
    requires Ordered(z, recs, top) && h0 <= h1 + 1 <= top + 1
    requires Redrawn(Shown(z, recs, top)[h0..h1 + 1], xs, ys, r, ids, was, now)
    ensures ScreenRedrawn(recs, h0, h1, xs, ys, r, ids, was, now)
  {
    forall x, y | 0 <= x < xs && 0 <= y < ys
      ensures var o, s := Named(Shown(z, recs, top)[h0..h1 + 1], At(ids, xs, x, y), x, y), recs[At(ids, xs, x, y)];
              if h0 <= s.height <= h1 && OnSheet(s, x, y) then o.Some? && Pixel(o.value, x, y) == ColourAt(s, x, y) else o.None?
    {
      NamedIsRecord(z, recs, top, h0, h1, At(ids, xs, x, y), x, y);
      SameOpaque(At(ids, xs, x, y), recs[At(ids, xs, x, y)], x, y);
    }
  }
}
