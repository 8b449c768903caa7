/**
 * Why repairing one rectangle of the map and of the screen, over part of the z-order, keeps both
 * in agreement with the naive painter when a sheet moves within the z-order or on the screen.
 */
module SceneRepair {
  import opened Basics
  import opened Scene
  import opened SheetPaint

  /** The part r of the map repainted from the given sheets, bottom to top. */
  ghost predicate Repainted(stack: seq<View>, xs: nat, ys: nat, r: Rect, was: seq<byte>, now: seq<byte>) {
    && |was| == |now|
    && forall x, y :: 0 <= x < xs && 0 <= y < ys ==>
         At(now, xs, x, y) == if Inside(r, x, y) && Owner(stack, x, y).Some? then Owner(stack, x, y).value.sid
                              else At(was, xs, x, y)
  }

  /** The sheet of the list that the map names at a pixel, if the pixel is on it. */
  ghost function Named(list: seq<View>, id: byte, x: int, y: int): Option<View> {
    if list == [] then None
    else if list[|list| - 1].sid == id && Spans(list[|list| - 1], x, y) then Some(list[|list| - 1])
    else Named(list[..|list| - 1], id, x, y)
  }

  ghost predicate Distinct(list: seq<View>) {
    forall j, k :: 0 <= j < k < |list| ==> list[j].sid != list[k].sid
  }

  lemma {:induction false} NamedAt(list: seq<View>, k: nat, x: int, y: int)
    requires Distinct(list) && k < |list| && Spans(list[k], x, y)
    ensures Named(list, list[k].sid, x, y) == Some(list[k])
  {
    if k < |list| - 1 {
      NamedAt(list[..|list| - 1], k, x, y);
    }
  }

  lemma {:induction false} NamedIn(list: seq<View>, id: byte, x: int, y: int)
    requires Named(list, id, x, y).Some?
    ensures exists k :: 0 <= k < |list| && list[k] == Named(list, id, x, y).value && list[k].sid == id
  {
    var n := |list| - 1;
    if !(list[n].sid == id && Spans(list[n], x, y)) {
      NamedIn(list[..n], id, x, y);
      var k :| 0 <= k < n && list[..n][k] == Named(list, id, x, y).value && list[..n][k].sid == id;
      assert list[k] == list[..n][k];
    }
  }

  /** The given sheets copied to the screen wherever the map names them: everywhere in r, perhaps also beside it. */
  ghost predicate Redrawn(list: seq<View>, xs: nat, ys: nat, r: Rect, ids: seq<byte>, was: seq<byte>, now: seq<byte>) {
    && |was| == |now|
    && forall x, y :: 0 <= x < xs && 0 <= y < ys ==>
         var o := Named(list, At(ids, xs, x, y), x, y);
         && (o.Some? && Inside(r, x, y) ==> At(now, xs, x, y) == Pixel(o.value, x, y))
         && (At(now, xs, x, y) == At(was, xs, x, y) || (o.Some? && At(now, xs, x, y) == Pixel(o.value, x, y)))
  }

  lemma NoneRedrawn(xs: nat, ys: nat, r: Rect, ids: seq<byte>, was: seq<byte>)
    ensures Redrawn([], xs, ys, r, ids, was, was)
  {
  }

  /** Only the part of r on the screen matters. */
  lemma RedrawnClipped(list: seq<View>, xs: nat, ys: nat, r: Rect, ids: seq<byte>, was: seq<byte>, now: seq<byte>)
    requires Redrawn(list, xs, ys, Clipped(r, xs, ys), ids, was, now)
    ensures Redrawn(list, xs, ys, r, ids, was, now)
  {
  }

  lemma PaintedNext(list: seq<View>, s: View, xs: nat, ys: nat, r: Rect, was: seq<byte>, mid: seq<byte>, now: seq<byte>)
    requires Repainted(list, xs, ys, r, was, mid) && Painted(s, xs, ys, r, mid, now)
    ensures Repainted(list + [s], xs, ys, r, was, now)
  {
    assert (list + [s])[..|list|] == list;
  }

  lemma RedrawnNext(list: seq<View>, s: View, xs: nat, ys: nat, r: Rect,
                    ids: seq<byte>, was: seq<byte>, mid: seq<byte>, now: seq<byte>)
    requires Distinct(list + [s])
    requires Redrawn(list, xs, ys, r, ids, was, mid) && Copied(s, xs, ys, r, ids, mid, now)
    ensures Redrawn(list + [s], xs, ys, r, ids, was, now)
  {
    assert (list + [s])[..|list|] == list;
    forall x, y | 0 <= x < xs && 0 <= y < ys && Named(list, At(ids, xs, x, y), x, y).Some?
      ensures At(ids, xs, x, y) != s.sid
    {
      NamedIn(list, At(ids, xs, x, y), x, y);
      var k :| 0 <= k < |list| && list[k].sid == At(ids, xs, x, y);
      assert (list + [s])[k].sid != (list + [s])[|list|].sid;
    }
  }

  /** Wherever some sheet is opaque, the map names the topmost one and the screen shows its colour. */
  ghost predicate Shows(stack: seq<View>, xs: nat, ys: nat, ids: seq<byte>, vram: seq<byte>) {
    forall x, y :: 0 <= x < xs && 0 <= y < ys && Owner(stack, x, y).Some? ==>
      && At(ids, xs, x, y) == Owner(stack, x, y).value.sid
      && At(vram, xs, x, y) == Pixel(Owner(stack, x, y).value, x, y)
  }

  /** The area of a sheet. */
  function Area(s: View): Rect { Rect(s.x, s.y, s.x + s.w, s.y + s.h) }

  lemma OwnerMember(stack: seq<View>, x: int, y: int) returns (k: nat)
    requires Owner(stack, x, y).Some?
    ensures k < |stack| && stack[k] == Owner(stack, x, y).value && Opaque(stack[k], x, y)
  {
    OwnerIsTopmost(stack, x, y, Owner(stack, x, y).value);
    k :| 0 <= k < |stack| && stack[k] == Owner(stack, x, y).value && Opaque(Owner(stack, x, y).value, x, y);
  }

  /** A pixel whose owner is redrawn there, or whose owner's colour was there already, shows its owner's colour. */
  lemma PixelShown(stack: seq<View>, list: seq<View>, xs: nat, ys: nat, r: Rect,
                   ids: seq<byte>, was: seq<byte>, now: seq<byte>, x: int, y: int)
    requires Distinct(stack) && (forall k :: 0 <= k < |list| ==> list[k] in stack) && Distinct(list)
    requires Redrawn(list, xs, ys, r, ids, was, now) && 0 <= x < xs && 0 <= y < ys
    requires Owner(stack, x, y).Some? && At(ids, xs, x, y) == Owner(stack, x, y).value.sid
    requires (Inside(r, x, y) && Owner(list, x, y) == Owner(stack, x, y))
             || At(was, xs, x, y) == Pixel(Owner(stack, x, y).value, x, y)
    ensures At(now, xs, x, y) == Pixel(Owner(stack, x, y).value, x, y)
  {
    var j := OwnerMember(stack, x, y);
    var o := Owner(stack, x, y).value;
    if Named(list, o.sid, x, y).Some? {
      NamedIn(list, o.sid, x, y);
      var k :| 0 <= k < |list| && list[k] == Named(list, o.sid, x, y).value && list[k].sid == o.sid;
      var i :| 0 <= i < |stack| && stack[i] == list[k];
      assert i == j;
    }
    if Owner(list, x, y) == Owner(stack, x, y) {
      var k := OwnerMember(list, x, y);
      NamedAt(list, k, x, y);
    }
  }

  /** Repairing the sheet's area from just above its new place is enough when it goes down. */
  lemma LowerRepairs(a: seq<View>, s: View, b: seq<View>, c: seq<View>, xs: nat, ys: nat,
                     ids: seq<byte>, ids': seq<byte>, vram: seq<byte>, vram': seq<byte>)
    requires Distinct(a + [s] + b + c) && Shows(a + b + [s] + c, xs, ys, ids, vram)
    requires Repainted(b + c, xs, ys, Area(s), ids, ids') && Redrawn(b, xs, ys, Area(s), ids', vram, vram')
    ensures Shows(a + [s] + b + c, xs, ys, ids', vram')
  {
    var t := a + [s] + b + c;
    DistinctPart(a + [s], b, c);
    forall x, y | 0 <= x < xs && 0 <= y < ys && Owner(t, x, y).Some?
      ensures At(ids', xs, x, y) == Owner(t, x, y).value.sid
      ensures At(vram', xs, x, y) == Pixel(Owner(t, x, y).value, x, y)
    {
      Lowered(a, s, b, c, x, y);
      PixelShown(t, b, xs, ys, Area(s), ids', vram, vram', x, y);
    }
  }

  /** Repairing the sheet's area, from the bottom of the stack up to its old place, is enough when it goes away. */
  lemma HideRepairs(a: seq<View>, s: View, b: seq<View>, xs: nat, ys: nat,
                    ids: seq<byte>, ids': seq<byte>, vram: seq<byte>, vram': seq<byte>)
    requires Distinct(a + b) && Shows(a + [s] + b, xs, ys, ids, vram)
    requires Repainted(a + b, xs, ys, Area(s), ids, ids') && Redrawn(a, xs, ys, Area(s), ids', vram, vram')
    ensures Shows(a + b, xs, ys, ids', vram')
  {
    DistinctPart([], a, b);
    assert [] + a + b == a + b;
    forall x, y | 0 <= x < xs && 0 <= y < ys && Owner(a + b, x, y).Some?
      ensures At(ids', xs, x, y) == Owner(a + b, x, y).value.sid
      ensures At(vram', xs, x, y) == Pixel(Owner(a + b, x, y).value, x, y)
    {
      Hidden(a, s, b, x, y);
      PixelShown(a + b, a, xs, ys, Area(s), ids', vram, vram', x, y);
    }
  }

  /** Repairing the map from the sheet up, and the screen for the sheet alone, is enough when it comes up or appears. */
  lemma RaiseRepairs(before: seq<View>, a: seq<View>, s: View, c: seq<View>, xs: nat, ys: nat,
                     ids: seq<byte>, ids': seq<byte>, vram: seq<byte>, vram': seq<byte>)
    requires Distinct(a + [s] + c) && Shows(before, xs, ys, ids, vram)
    requires before == a + c || exists i: nat :: i <= |a| && before == a[..i] + [s] + a[i..] + c
    requires Repainted([s] + c, xs, ys, Area(s), ids, ids') && Redrawn([s], xs, ys, Area(s), ids', vram, vram')
    ensures Shows(a + [s] + c, xs, ys, ids', vram')
  {
    var t := a + [s] + c;
    DistinctPart(a, [s], c);
    forall x, y | 0 <= x < xs && 0 <= y < ys && Owner(t, x, y).Some?
      ensures At(ids', xs, x, y) == Owner(t, x, y).value.sid
      ensures At(vram', xs, x, y) == Pixel(Owner(t, x, y).value, x, y)
    {
      if before == a + c {
        Inserted(a, s, c, x, y);
      } else {
        var i: nat :| i <= |a| && before == a[..i] + [s] + a[i..] + c;
        Raised(a[..i], s, a[i..], c, x, y);
        assert a[..i] + a[i..] == a;
      }
      OwnerOne(s, x, y);
      PixelShown(t, [s], xs, ys, Area(s), ids', vram, vram', x, y);
    }
  }

  lemma DistinctPart(a: seq<View>, b: seq<View>, c: seq<View>)
    requires Distinct(a + b + c)
    ensures Distinct(b) && forall k :: 0 <= k < |b| ==> b[k] in a + b + c
  {
    assert forall k :: 0 <= k < |b| ==> b[k] == (a + b + c)[|a| + k];
  }

  lemma DistinctSlice(list: seq<View>, h0: nat, h: nat)
    requires Distinct(list) && h0 <= h < |list|
    ensures list[h0..h + 1] == list[h0..h] + [list[h]] && Distinct(list[h0..h] + [list[h]])
  {
  }

  /** The stack after a sheet leaves height `from` (-1: it was hidden) and comes to stand at `to` (-1: it is hidden). */
  function Restacked(stack: seq<View>, s: View, from: int, to: int): seq<View>
    requires -1 <= from < |stack| && -1 <= to <= (if from >= 0 then |stack| - 1 else |stack|)
  {
    var rest := if from >= 0 then stack[..from] + stack[from + 1..] else stack;
    if to >= 0 then rest[..to] + [s] + rest[to..] else rest
  }

  /** A sheet that slides: two repairs of the map and two of the screen, for where it was and for where it is. */
  lemma SlideRepairs(a: seq<View>, s: View, s': View, b: seq<View>, xs: nat, ys: nat,
                     ids: seq<byte>, ids1: seq<byte>, ids': seq<byte>, vram: seq<byte>, vram1: seq<byte>, vram': seq<byte>)
    requires Distinct(a + [s'] + b) && Shows(a + [s] + b, xs, ys, ids, vram) && s'.sid == s.sid
    requires Repainted(a + [s'] + b, xs, ys, Area(s), ids, ids1) && Repainted([s'] + b, xs, ys, Area(s'), ids1, ids')
    requires Redrawn(a, xs, ys, Area(s), ids', vram, vram1) && Redrawn([s'], xs, ys, Area(s'), ids', vram1, vram')
    ensures Shows(a + [s'] + b, xs, ys, ids', vram')
  {
    var t := a + [s'] + b;
    assert [] + a + ([s'] + b) == t;
    DistinctPart([], a, [s'] + b);
    DistinctPart(a, [s'], b);
    forall x, y | 0 <= x < xs && 0 <= y < ys && Owner(t, x, y).Some?
      ensures At(ids', xs, x, y) == Owner(t, x, y).value.sid
      ensures At(vram', xs, x, y) == Pixel(Owner(t, x, y).value, x, y)
    {
      Slid(a, s, s', b, x, y);
      OwnerOne(s', x, y);
      var before := Owner(a + [s] + b, x, y);
      assert At(ids1, xs, x, y) == if Inside(Area(s), x, y) then Owner(t, x, y).value.sid else At(ids, xs, x, y);
      assert !Inside(Area(s), x, y) ==> !Opaque(s, x, y);
      assert !Inside(Area(s'), x, y) ==> !Opaque(s', x, y);
      if Owner(b, x, y).Some? || !Opaque(s', x, y) {
        PixelShown(t, a, xs, ys, Area(s), ids', vram, vram1, x, y);
      }
      PixelShown(t, [s'], xs, ys, Area(s'), ids', vram1, vram', x, y);
    }
  }

  // ---- the same for a stack, a sheet's old height and its new one ----

  lemma SplitDown(stack: seq<View>, from: nat, to: nat)
    returns (a: seq<View>, s: View, b: seq<View>, c: seq<View>)
    requires to < from < |stack|
    ensures s == stack[from] && stack == a + b + [s] + c && Restacked(stack, s, from, to) == a + [s] + b + c
    ensures |Restacked(stack, s, from, to)| == |stack|
    ensures Restacked(stack, s, from, to)[to + 1..] == b + c && Restacked(stack, s, from, to)[to + 1..from + 1] == b
  {
    a, s, b, c := stack[..to], stack[from], stack[to..from], stack[from + 1..];
    var rest := stack[..from] + stack[from + 1..];
    assert stack[..from] == a + b;
    assert rest[..to] == a;
    assert rest[to..] == b + c;
    assert a + [s] + (b + c) == a + [s] + b + c;
  }

  lemma DownRepairs(stack: seq<View>, after: seq<View>, from: nat, to: nat, xs: nat, ys: nat,
                    ids: seq<byte>, ids': seq<byte>, vram: seq<byte>, vram': seq<byte>)
    requires to < from < |stack| && after == Restacked(stack, stack[from], from, to)
    requires var r := Area(stack[from]);
             && Distinct(after) && Shows(stack, xs, ys, ids, vram) && |after| == |stack|
             && Repainted(after[to + 1..], xs, ys, r, ids, ids') && Redrawn(after[to + 1..from + 1], xs, ys, r, ids', vram, vram')
    ensures Shows(after, xs, ys, ids', vram')
  {
    var a, s, b, c := SplitDown(stack, from, to);
    LowerRepairs(a, s, b, c, xs, ys, ids, ids', vram, vram');
  }

  lemma OutRepairs(stack: seq<View>, after: seq<View>, from: nat, xs: nat, ys: nat,
                   ids: seq<byte>, ids': seq<byte>, vram: seq<byte>, vram': seq<byte>)
    requires from < |stack| && after == Restacked(stack, stack[from], from, -1)
    requires var r := Area(stack[from]);
             && Distinct(after) && Shows(stack, xs, ys, ids, vram) && |after| == |stack| - 1
             && Repainted(after, xs, ys, r, ids, ids') && Redrawn(after[..from], xs, ys, r, ids', vram, vram')
    ensures Shows(after, xs, ys, ids', vram')
  {
    var a, s, b := stack[..from], stack[from], stack[from + 1..];
    assert stack == a + [s] + b;
    assert (a + b)[..from] == a;
    HideRepairs(a, s, b, xs, ys, ids, ids', vram, vram');
  }

  lemma UpRepairs(stack: seq<View>, after: seq<View>, s: View, from: int, to: nat, xs: nat, ys: nat,
                  ids: seq<byte>, ids': seq<byte>, vram: seq<byte>, vram': seq<byte>)
    requires -1 <= from < to <= |stack| && (from >= 0 ==> to < |stack| && stack[from] == s)
    requires after == Restacked(stack, s, from, to)
    requires var r := Area(s);
             && Distinct(after) && Shows(stack, xs, ys, ids, vram) && to < |after|
             && Repainted(after[to..], xs, ys, r, ids, ids') && Redrawn(after[to..to + 1], xs, ys, r, ids', vram, vram')
    ensures Shows(after, xs, ys, ids', vram')
  {
    var rest := if from >= 0 then stack[..from] + stack[from + 1..] else stack;
    var a, c := rest[..to], rest[to..];
    assert after == a + [s] + c;
    assert after[to..] == [s] + c && after[to..to + 1] == [s];
    if from >= 0 {
      assert stack == a[..from] + [s] + a[from..] + c;
    } else {
      assert stack == a + c;
    }
    RaiseRepairs(stack, a, s, c, xs, ys, ids, ids', vram, vram');
  }

  lemma SlideRepairsAt(stack: seq<View>, after: seq<View>, h: nat, s': View, xs: nat, ys: nat,
                       ids: seq<byte>, ids1: seq<byte>, ids': seq<byte>, vram: seq<byte>, vram1: seq<byte>, vram': seq<byte>)
    requires h < |stack| && after == stack[h := s'] && s'.sid == stack[h].sid
    requires Distinct(after) && Shows(stack, xs, ys, ids, vram)
    requires Repainted(after, xs, ys, Area(stack[h]), ids, ids1) && Repainted(after[h..], xs, ys, Area(s'), ids1, ids')
    requires Redrawn(after[..h], xs, ys, Area(stack[h]), ids', vram, vram1)
    requires Redrawn(after[h..h + 1], xs, ys, Area(s'), ids', vram1, vram')
    ensures Shows(after, xs, ys, ids', vram')
  {
    var a, s, b := stack[..h], stack[h], stack[h + 1..];
    assert stack == a + [s] + b && after == a + [s'] + b;
    assert after[h..] == [s'] + b && after[h..h + 1] == [s'] && after[..h] == a;
    SlideRepairs(a, s, s', b, xs, ys, ids, ids1, ids', vram, vram1, vram');
  }

  /** Redrawing one shown sheet over r, when the screen was right but for what that sheet owns in r. */
  lemma RefreshShows(stack: seq<View>, s: View, xs: nat, ys: nat, r: Rect, ids: seq<byte>, was: seq<byte>, now: seq<byte>)
    requires Distinct(stack) && s in stack && Redrawn([s], xs, ys, r, ids, was, now)
    requires forall x, y :: 0 <= x < xs && 0 <= y < ys && Owner(stack, x, y).Some? ==>
               var o := Owner(stack, x, y).value;
               && At(ids, xs, x, y) == o.sid
               && (At(was, xs, x, y) == Pixel(o, x, y) || (o == s && Inside(r, x, y)))
    ensures Shows(stack, xs, ys, ids, now)
  {
    forall x, y | 0 <= x < xs && 0 <= y < ys && Owner(stack, x, y).Some?
      ensures At(now, xs, x, y) == Pixel(Owner(stack, x, y).value, x, y)
    {
      var k := OwnerMember(stack, x, y);
      OwnerOne(s, x, y);
      PixelShown(stack, [s], xs, ys, r, ids, was, now, x, y);
    }
  }

  /** With an opaque bottom sheet over the whole screen, every pixel has an owner. */
  lemma Covered(stack: seq<View>, xs: nat, ys: nat, ids: seq<byte>, vram: seq<byte>)
    requires Shows(stack, xs, ys, ids, vram) && stack != []
    requires stack[0].inv == -1 && stack[0].x <= 0 && stack[0].y <= 0
    requires stack[0].x + stack[0].w >= xs && stack[0].y + stack[0].h >= ys
    ensures forall x, y :: 0 <= x < xs && 0 <= y < ys ==>
              && Owner(stack, x, y).Some?
              && At(ids, xs, x, y) == Owner(stack, x, y).value.sid
              && At(vram, xs, x, y) == Pixel(Owner(stack, x, y).value, x, y)
  {
    forall x, y | 0 <= x < xs && 0 <= y < ys ensures Owner(stack, x, y).Some? {
      OwnerConcat([stack[0]], stack[1..], x, y);
      OwnerOne(stack[0], x, y);
      assert [stack[0]] + stack[1..] == stack;
    }
  }

  lemma StaysPut(stack: seq<View>, s: View, at: int)
    requires -1 <= at < |stack| && (at >= 0 ==> stack[at] == s)
    ensures Restacked(stack, s, at, at) == stack
  {
  }
}
