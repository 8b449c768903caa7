/**
 * The z-order of the compositor. The C code keeps the sheets in a fixed array of structures and
 * the z-order in an array of pointers into it; a pointer is modelled as the index of the structure.
 */
module ZOrder {
  import opened Arith
  import opened Basics
  import opened Scene
  import opened SceneRepair
  import opened SheetPaint

  const MAX_SHEETS: nat := 256

  datatype Sheet = Sheet(buf: seq<byte>, bxsize: int, bysize: int, vx0: int, vy0: int, colInv: int, height: int, flags: int)

  function ViewOf(id: byte, s: Sheet): View {
    View(id, s.buf, s.bxsize, s.bysize, s.vx0, s.vy0, s.colInv)
  }

  /** z[0..top] is the z-order; a sheet's height is its index there, or -1 when it is hidden. */
  ghost predicate Ordered(z: seq<nat>, recs: seq<Sheet>, top: int) {
    && |z| == |recs| == MAX_SHEETS
    && -1 <= top < MAX_SHEETS
    && (forall h :: 0 <= h <= top ==> z[h] < MAX_SHEETS && recs[z[h]].height == h)
    && (forall k :: 0 <= k < MAX_SHEETS ==>
         recs[k].height == -1 || (0 <= recs[k].height <= top && z[recs[k].height] == k))
  }

  ghost function Shown(z: seq<nat>, recs: seq<Sheet>, top: int): seq<View>
    requires Ordered(z, recs, top)
  {
    seq(top + 1, h requires 0 <= h < top + 1 => ViewOf(z[h], recs[z[h]]))
  }

  lemma HeightsEnd(z: seq<nat>, recs: seq<Sheet>, top: int, id: nat)
    requires Ordered(z, recs, top) && id < MAX_SHEETS
    ensures -1 <= recs[id].height <= top < MAX_SHEETS
  {
  }

  /** Every sheet's buffer has the size of the sheet. */
  ghost predicate Sized(recs: seq<Sheet>) {
    |recs| == MAX_SHEETS && forall k :: 0 <= k < MAX_SHEETS ==> WellFormed(ViewOf(k, recs[k]))
  }

  lemma ShownDistinct(z: seq<nat>, recs: seq<Sheet>, top: int)
    requires Ordered(z, recs, top)
    ensures Distinct(Shown(z, recs, top))
  {
  }

  /** With a sheet hidden, the z-order has room for it. */
  lemma RoomForHidden(z: seq<nat>, recs: seq<Sheet>, top: int, id: nat)
    requires Ordered(z, recs, top) && id < MAX_SHEETS && recs[id].height == -1
    ensures top + 1 < MAX_SHEETS
  {
    var shown := ShownIds(z, recs, top, top + 1);
    MissesOne(shown, MAX_SHEETS, id);
  }

  lemma MissesOne(ids: set<nat>, n: nat, id: nat)
    requires id < n && id !in ids && forall k :: k in ids ==> k < n
    ensures |ids| < n
  {
    SubsetSize(ids, Span(0, n) - {id});
  }

  lemma {:induction false} ShownIds(z: seq<nat>, recs: seq<Sheet>, top: int, n: nat) returns (ids: set<nat>)
    requires Ordered(z, recs, top) && n <= top + 1
    ensures |ids| == n && forall k :: k in ids ==> k < MAX_SHEETS && 0 <= recs[k].height < n
  {
    if n == 0 {
      ids := {};
    } else {
      ids := ShownIds(z, recs, top, n - 1);
      ids := ids + {z[n - 1]};
    }
  }

  // ---- one specification for all moves within, into and out of the z-order (-1: hidden) ----

  /** Where the sheet at height h ends up when another one goes from `from` to `to`. */
  function NewHeight(h: int, from: int, to: int): int {
    var h1 := if from >= 0 && h > from then h - 1 else h;
    if to >= 0 && h1 >= to then h1 + 1 else h1
  }

  /** Where the sheet now at height h, not the moved one, was before. */
  function OldHeight(h: int, from: int, to: int): int {
    var h1 := if to >= 0 && h > to then h - 1 else h;
    if from >= 0 && h1 >= from then h1 + 1 else h1
  }

  function NewTop(top: int, from: int, to: int): int {
    top - (if from >= 0 then 1 else 0) + (if to >= 0 then 1 else 0)
  }

  ghost predicate Moved(z: seq<nat>, recs: seq<Sheet>, top: int, id: nat, to: int, z': seq<nat>, recs': seq<Sheet>)
    requires |z| == |z'| == |recs| == |recs'| == MAX_SHEETS && id < MAX_SHEETS
    requires -1 <= to <= NewTop(top, recs[id].height, to) < MAX_SHEETS
  {
    var from := recs[id].height;
    && (to >= 0 ==> z'[to] == id)
    && (forall h :: 0 <= h <= NewTop(top, from, to) && h != to ==>
         0 <= OldHeight(h, from, to) < MAX_SHEETS && z'[h] == z[OldHeight(h, from, to)])
    && (forall k :: 0 <= k < MAX_SHEETS ==>
         recs'[k] == recs[k].(height := if k == id then to
                                        else if recs[k].height == -1 then -1
                                        else NewHeight(recs[k].height, from, to)))
  }

  /** Nothing about any sheet but its height has changed. */
  ghost predicate SameButHeights(recs: seq<Sheet>, recs': seq<Sheet>) {
    |recs| == |recs'| && forall k :: 0 <= k < |recs| ==> recs'[k] == recs[k].(height := recs'[k].height)
  }

  /** The other sheets stay shown or hidden, and above and below each other as they were. */
  ghost predicate OthersKeepOrder(recs: seq<Sheet>, recs': seq<Sheet>, id: nat) {
    && |recs| == |recs'|
    && (forall k :: 0 <= k < |recs| && k != id ==> (recs'[k].height >= 0 <==> recs[k].height >= 0))
    && (forall j, k :: 0 <= j < |recs| && 0 <= k < |recs| && j != id && k != id && recs[j].height >= 0 && recs[k].height >= 0 ==>
          (recs'[j].height < recs'[k].height <==> recs[j].height < recs[k].height))
  }

  lemma SameOrder(recs: seq<Sheet>, id: nat)
    ensures SameButHeights(recs, recs) && OthersKeepOrder(recs, recs, id)
  {
  }

  lemma MovedKeepsOrder(z: seq<nat>, recs: seq<Sheet>, top: int, id: nat, to: int, z': seq<nat>, recs': seq<Sheet>)
    requires Ordered(z, recs, top) && id < MAX_SHEETS && |z'| == |recs'| == MAX_SHEETS
    requires -1 <= to <= NewTop(top, recs[id].height, to) < MAX_SHEETS
    requires Moved(z, recs, top, id, to, z', recs')
    ensures OthersKeepOrder(recs, recs', id)
  {
    forall k | 0 <= k < MAX_SHEETS && k != id && recs[k].height >= 0 ensures recs[k].height != recs[id].height {
      assert z[recs[k].height] == k;
    }
  }

  lemma SameButFlags(recs: seq<Sheet>, recs': seq<Sheet>, id: nat)
    requires SameButHeights(recs, recs') && id < |recs|
    ensures SameButHeights(recs[id := recs[id].(flags := 0)], recs'[id := recs'[id].(flags := 0)])
  {
  }

  lemma MovedOrdered(z: seq<nat>, recs: seq<Sheet>, top: int, id: nat, to: int, z': seq<nat>, recs': seq<Sheet>)
    requires Ordered(z, recs, top) && id < MAX_SHEETS && |z'| == |recs'| == MAX_SHEETS
    requires -1 <= to <= NewTop(top, recs[id].height, to) < MAX_SHEETS
    requires Moved(z, recs, top, id, to, z', recs')
    ensures Ordered(z', recs', NewTop(top, recs[id].height, to))
  {
    var from, top' := recs[id].height, NewTop(top, recs[id].height, to);
    forall h | 0 <= h <= top' ensures z'[h] < MAX_SHEETS && recs'[z'[h]].height == h {
      if h != to {
        var g := OldHeight(h, from, to);
        assert 0 <= g <= top && g != from;
        assert z'[h] == z[g];
      }
    }
    forall k | 0 <= k < MAX_SHEETS
      ensures recs'[k].height == -1 || (0 <= recs'[k].height <= top' && z'[recs'[k].height] == k)
    {
      var g := recs[k].height;
      if k != id && g != -1 {
        assert z[g] == k && g != from;
        assert OldHeight(NewHeight(g, from, to), from, to) == g;
      }
    }
  }

  /** What is shown afterwards is the old stack with the sheet taken out and put in again. */
  lemma MovedShown(z: seq<nat>, recs: seq<Sheet>, top: int, id: nat, to: int, z': seq<nat>, recs': seq<Sheet>)
    requires Ordered(z, recs, top) && id < MAX_SHEETS && |z'| == |recs'| == MAX_SHEETS
    requires -1 <= to <= NewTop(top, recs[id].height, to) < MAX_SHEETS
    requires Moved(z, recs, top, id, to, z', recs')
    requires Ordered(z', recs', NewTop(top, recs[id].height, to))
    ensures Shown(z', recs', NewTop(top, recs[id].height, to))
            == Restacked(Shown(z, recs, top), ViewOf(id, recs[id]), recs[id].height, to)
  {
    var from, s := recs[id].height, ViewOf(id, recs[id]);
    var before, now := Shown(z, recs, top), Shown(z', recs', NewTop(top, recs[id].height, to));
    RestackedSize(before, s, from, to);
    forall h | 0 <= h < |now| ensures now[h] == Restacked(before, s, from, to)[h] {
      MovedShownThere(z, recs, top, id, to, z', recs', h);
    }
  }

  lemma MovedShownThere(z: seq<nat>, recs: seq<Sheet>, top: int, id: nat, to: int, z': seq<nat>, recs': seq<Sheet>, h: nat)
    requires Ordered(z, recs, top) && id < MAX_SHEETS && |z'| == |recs'| == MAX_SHEETS
    requires -1 <= to <= NewTop(top, recs[id].height, to) < MAX_SHEETS
    requires Moved(z, recs, top, id, to, z', recs')
    requires Ordered(z', recs', NewTop(top, recs[id].height, to)) && h <= NewTop(top, recs[id].height, to)
    ensures h < |Restacked(Shown(z, recs, top), ViewOf(id, recs[id]), recs[id].height, to)|
    ensures Shown(z', recs', NewTop(top, recs[id].height, to))[h]
            == Restacked(Shown(z, recs, top), ViewOf(id, recs[id]), recs[id].height, to)[h]
  {
    var from, s, before := recs[id].height, ViewOf(id, recs[id]), Shown(z, recs, top);
    RestackedAt(before, s, from, to, h);
    MovedShownAt(z, recs, top, id, to, z', recs', h);
    ShownAt(z', recs', NewTop(top, from, to), h);
    if h != to { ShownAt(z, recs, top, OldHeight(h, from, to)); }
  }

  lemma ShownAt(z: seq<nat>, recs: seq<Sheet>, top: int, h: nat)
    requires Ordered(z, recs, top) && h <= top
    ensures z[h] < MAX_SHEETS && Shown(z, recs, top)[h] == ViewOf(z[h], recs[z[h]])
  {
  }

  lemma MovedSized(z: seq<nat>, recs: seq<Sheet>, top: int, id: nat, to: int, z': seq<nat>, recs': seq<Sheet>)
    requires |z| == |z'| == |recs| == |recs'| == MAX_SHEETS && id < MAX_SHEETS
    requires -1 <= to <= NewTop(top, recs[id].height, to) < MAX_SHEETS
    requires Moved(z, recs, top, id, to, z', recs')
    ensures forall k :: 0 <= k < MAX_SHEETS ==> ViewOf(k, recs'[k]) == ViewOf(k, recs[k])
    ensures Sized(recs) ==> Sized(recs')
  {
  }

  /** All that a move keeps and changes, at once. */
  lemma MovedAll(z: seq<nat>, recs: seq<Sheet>, top: int, id: nat, to: int, z': seq<nat>, recs': seq<Sheet>)
    requires Ordered(z, recs, top) && id < MAX_SHEETS && |z'| == |recs'| == MAX_SHEETS
    requires -1 <= to <= NewTop(top, recs[id].height, to) < MAX_SHEETS
    requires Moved(z, recs, top, id, to, z', recs')
    ensures Ordered(z', recs', NewTop(top, recs[id].height, to))
    ensures Shown(z', recs', NewTop(top, recs[id].height, to))
            == Restacked(Shown(z, recs, top), ViewOf(id, recs[id]), recs[id].height, to)
    ensures recs'[id].height == to && ViewOf(id, recs'[id]) == ViewOf(id, recs[id])
    ensures Sized(recs) ==> Sized(recs')
    ensures SameButHeights(recs, recs') && OthersKeepOrder(recs, recs', id)
    ensures recs[id].height >= 0 ==> Shown(z, recs, top)[recs[id].height] == ViewOf(id, recs[id])
    ensures Distinct(Shown(z', recs', NewTop(top, recs[id].height, to)))
  {
    MovedOrdered(z, recs, top, id, to, z', recs');
    MovedShown(z, recs, top, id, to, z', recs');
    MovedSized(z, recs, top, id, to, z', recs');
    MovedKeepsOrder(z, recs, top, id, to, z', recs');
    ShownDistinct(z', recs', NewTop(top, recs[id].height, to));
  }

  /** A sheet's record changes, but not its height. */
  lemma Replaced(z: seq<nat>, recs: seq<Sheet>, top: int, id: nat, s: Sheet)
    requires Ordered(z, recs, top) && Sized(recs) && id < MAX_SHEETS && s.height == recs[id].height && WellFormed(ViewOf(id, s))
    ensures var recs', h := recs[id := s], s.height;
            && Ordered(z, recs', top) && Sized(recs') && Distinct(Shown(z, recs', top))
            && Shown(z, recs', top) == (if h >= 0 then Shown(z, recs, top)[h := ViewOf(id, s)] else Shown(z, recs, top))
            && (h >= 0 ==> Shown(z, recs, top)[h] == ViewOf(id, recs[id]))
  {
    var recs' := recs[id := s];
    forall h | 0 <= h <= top ensures z[h] < MAX_SHEETS && recs'[z[h]].height == h && (z[h] == id <==> h == recs[id].height) {
      assert recs[z[h]].height == h;
    }
    forall k | 0 <= k < MAX_SHEETS
      ensures recs'[k].height == -1 || (0 <= recs'[k].height <= top && z[recs'[k].height] == k)
    {
      assert recs'[k].height == recs[k].height;
    }
    ShownDistinct(z, recs', top);
  }

  lemma MovedShownAt(z: seq<nat>, recs: seq<Sheet>, top: int, id: nat, to: int, z': seq<nat>, recs': seq<Sheet>, h: nat)
    requires Ordered(z, recs, top) && id < MAX_SHEETS && |z'| == |recs'| == MAX_SHEETS
    requires -1 <= to <= NewTop(top, recs[id].height, to) < MAX_SHEETS
    requires Moved(z, recs, top, id, to, z', recs')
    requires h <= NewTop(top, recs[id].height, to)
    ensures z'[h] < MAX_SHEETS
    ensures h != to ==> 0 <= OldHeight(h, recs[id].height, to) <= top && z[OldHeight(h, recs[id].height, to)] < MAX_SHEETS
    ensures ViewOf(z'[h], recs'[z'[h]]) ==
            if h == to then ViewOf(id, recs[id])
            else ViewOf(z[OldHeight(h, recs[id].height, to)], recs[z[OldHeight(h, recs[id].height, to)]])
  {
    var from := recs[id].height;
    if h != to {
      assert z'[h] == z[OldHeight(h, from, to)];
    }
  }

  lemma RestackedSize(stack: seq<View>, s: View, from: int, to: int)
    requires -1 <= from < |stack| && -1 <= to <= (if from >= 0 then |stack| - 1 else |stack|)
    ensures |Restacked(stack, s, from, to)| == NewTop(|stack| - 1, from, to) + 1
  {
  }

  lemma RestackedAt(stack: seq<View>, s: View, from: int, to: int, h: nat)
    requires -1 <= from < |stack| && -1 <= to <= (if from >= 0 then |stack| - 1 else |stack|)
    requires h <= NewTop(|stack| - 1, from, to)
    ensures |Restacked(stack, s, from, to)| == NewTop(|stack| - 1, from, to) + 1
    ensures h != to ==> 0 <= OldHeight(h, from, to) < |stack|
    ensures Restacked(stack, s, from, to)[h] == if h == to then s else stack[OldHeight(h, from, to)]
  {
    var rest := if from >= 0 then stack[..from] + stack[from + 1..] else stack;
    var all := Restacked(stack, s, from, to);
    if h != to {
      var j := if 0 <= to < h then h - 1 else h;
      assert all[h] == rest[j];
      assert rest[j] == stack[if 0 <= from <= j then j + 1 else j];
    }
  }

  // ---- the four loops of the C code that move sheets in the z-order ----

  /** Heights in lo .. hi-1 have changed by d, and the sheet itself has gone to `to`. */
  ghost predicate Shifted(recs: seq<Sheet>, recs': seq<Sheet>, id: nat, to: int, lo: int, hi: int, d: int) {
    && |recs| == |recs'| == MAX_SHEETS && id < MAX_SHEETS
    && forall k :: 0 <= k < MAX_SHEETS ==>
         recs'[k] == recs[k].(height := if k == id then to
                                        else if lo <= recs[k].height < hi then recs[k].height + d
                                        else recs[k].height)
  }

  /** The sheets other than id at heights lo .. hi-1 are just those that the z-order has there. */
  ghost predicate Listed(z: seq<nat>, recs: seq<Sheet>, id: nat, lo: int, hi: int) {
    && |z| == |recs| == MAX_SHEETS && 0 <= lo <= hi <= MAX_SHEETS
    && (forall h :: lo <= h < hi ==> z[h] < MAX_SHEETS && z[h] != id && recs[z[h]].height == h)
    && (forall k :: 0 <= k < MAX_SHEETS && k != id && lo <= recs[k].height < hi ==> z[recs[k].height] == k)
  }

  /** One more sheet, that at height h next to those between a and b, changes its height by d. */
  lemma ShiftedOne(z: seq<nat>, r: seq<Sheet>, now: seq<Sheet>, id: nat, stay: int, lo: int, hi: int, h: int, a: int, b: int, d: int)
    requires Listed(z, r, id, lo, hi) && lo <= h < hi && lo <= a <= b <= hi && (h == a - 1 || h == b)
    requires Shifted(r, now, id, stay, a, b, d)
    ensures z[h] < MAX_SHEETS
    ensures Shifted(r, now[z[h] := now[z[h]].(height := h + d)], id, stay, if h == b then a else h, if h == b then b + 1 else b, d)
  {
    assert z[h] != id && r[z[h]].height == h;
  }

  /** What stands at heights lo .. hi-1 moves up one, from the top down. */
  method ShiftUp(sheets: array<nat>, recs: array<Sheet>, id: nat, lo: int, hi: int)
    requires sheets as object != recs && id < MAX_SHEETS && hi < MAX_SHEETS && Listed(sheets[..], recs[..], id, lo, hi)
    modifies sheets, recs
    ensures forall k :: lo <= k < hi ==> sheets[k + 1] == old(sheets[k])
    ensures forall k :: 0 <= k <= lo || hi < k < MAX_SHEETS ==> sheets[k] == old(sheets[k])
    ensures Shifted(old(recs[..]), recs[..], id, old(recs[id].height), lo, hi, 1)
  {
    ghost var z, r, stay := sheets[..], recs[..], recs[id].height;
    var h := hi;
    while h > lo
      invariant lo <= h <= hi
      invariant forall k :: h <= k < hi ==> sheets[k + 1] == z[k]
      invariant forall k :: 0 <= k <= h || hi < k < MAX_SHEETS ==> sheets[k] == z[k]
      invariant Shifted(r, recs[..], id, stay, h, hi, 1)
    {
      var moved := sheets[h - 1];
      ghost var now := recs[..];
      ShiftedOne(z, r, now, id, stay, lo, hi, h - 1, h, hi, 1);
      sheets[h] := moved;
      recs[moved] := recs[moved].(height := h);
      assert recs[..] == now[moved := now[moved].(height := h)];
      h := h - 1;
    }
  }

  /** What stands at heights lo+1 .. hi moves down one, from the bottom up. */
  method ShiftDown(sheets: array<nat>, recs: array<Sheet>, id: nat, lo: int, hi: int)
    requires sheets as object != recs && id < MAX_SHEETS && 0 <= lo <= hi
    requires Listed(sheets[..], recs[..], id, lo + 1, hi + 1)
    modifies sheets, recs
    ensures forall k :: lo <= k < hi ==> sheets[k] == old(sheets[k + 1])
    ensures forall k :: 0 <= k < lo || hi <= k < MAX_SHEETS ==> sheets[k] == old(sheets[k])
    ensures Shifted(old(recs[..]), recs[..], id, old(recs[id].height), lo + 1, hi + 1, -1)
  {
    ghost var z, r, stay := sheets[..], recs[..], recs[id].height;
    var h := lo;
    while h < hi
      invariant lo <= h <= hi
      invariant forall k :: lo <= k < h ==> sheets[k] == z[k + 1]
      invariant forall k :: 0 <= k < lo || h <= k < MAX_SHEETS ==> sheets[k] == z[k]
      invariant Shifted(r, recs[..], id, stay, lo + 1, h + 1, -1)
    {
      var moved := sheets[h + 1];
      ghost var now := recs[..];
      ShiftedOne(z, r, now, id, stay, lo + 1, hi + 1, h + 1, lo + 1, h + 1, -1);
      sheets[h] := moved;
      recs[moved] := recs[moved].(height := h);
      assert recs[..] == now[moved := now[moved].(height := h)];
      h := h + 1;
    }
  }

  /** Down to `to`; what was between moves up one. */
  method Lower(sheets: array<nat>, recs: array<Sheet>, top: int, id: nat, to: int)
    requires sheets as object != recs && Ordered(sheets[..], recs[..], top)
    requires id < MAX_SHEETS && 0 <= to < recs[id].height
    modifies sheets, recs
    ensures Moved(old(sheets[..]), old(recs[..]), top, id, to, sheets[..], recs[..])
  {
    ghost var z, r := sheets[..], recs[..];
    var from := recs[id].height;
    recs[id] := recs[id].(height := to);
    ShiftUp(sheets, recs, id, to, from);
    sheets[to] := id;
    ShiftedUp(z, r, top, id, to, from, sheets[..], recs[..]);
  }

  /** Out of the z-order; what was above moves down one. */
  method Hide(sheets: array<nat>, recs: array<Sheet>, top: int, id: nat)
    requires sheets as object != recs && Ordered(sheets[..], recs[..], top)
    requires id < MAX_SHEETS && recs[id].height >= 0
    modifies sheets, recs
    ensures Moved(old(sheets[..]), old(recs[..]), top, id, -1, sheets[..], recs[..])
    ensures sheets[top] == old(sheets[top])
  {
    ghost var z, r := sheets[..], recs[..];
    var from := recs[id].height;
    recs[id] := recs[id].(height := -1);
    ShiftDown(sheets, recs, id, from, top);
    ShiftedDown(z, r, top, id, -1, top, sheets[..], recs[..]);
  }

  /** Up to `to`; what was between moves down one. */
  method Raise(sheets: array<nat>, recs: array<Sheet>, top: int, id: nat, to: int)
    requires sheets as object != recs && Ordered(sheets[..], recs[..], top)
    requires id < MAX_SHEETS && 0 <= recs[id].height < to <= top
    modifies sheets, recs
    ensures Moved(old(sheets[..]), old(recs[..]), top, id, to, sheets[..], recs[..])
  {
    ghost var z, r := sheets[..], recs[..];
    var from := recs[id].height;
    recs[id] := recs[id].(height := to);
    ShiftDown(sheets, recs, id, from, to);
    sheets[to] := id;
    ShiftedDown(z, r, top, id, to, to, sheets[..], recs[..]);
  }

  /** A hidden sheet into the z-order at `to`; what was from there up moves up one. */
  method Show(sheets: array<nat>, recs: array<Sheet>, top: int, id: nat, to: int)
    requires sheets as object != recs && Ordered(sheets[..], recs[..], top) && top + 1 < MAX_SHEETS
    requires id < MAX_SHEETS && recs[id].height == -1 && 0 <= to <= top + 1
    modifies sheets, recs
    ensures Moved(old(sheets[..]), old(recs[..]), top, id, to, sheets[..], recs[..])
  {
    ghost var z, r := sheets[..], recs[..];
    recs[id] := recs[id].(height := to);
    ShiftUp(sheets, recs, id, to, top + 1);
    sheets[to] := id;
    ShiftedUp(z, r, top, id, to, top + 1, sheets[..], recs[..]);
  }

  lemma ShiftedUp(z: seq<nat>, r: seq<Sheet>, top: int, id: nat, to: int, hi: int, z': seq<nat>, r': seq<Sheet>)
    requires Ordered(z, r, top) && |z'| == MAX_SHEETS && id < MAX_SHEETS && 0 <= to <= hi < MAX_SHEETS
    requires hi == if r[id].height >= 0 then r[id].height else top + 1
    requires Shifted(r, r', id, to, to, hi, 1)
    requires z'[to] == id && forall k :: to <= k < hi ==> z'[k + 1] == z[k]
    requires forall k :: 0 <= k < to || hi < k < MAX_SHEETS ==> z'[k] == z[k]
    ensures Moved(z, r, top, id, to, z', r')
  {
    var from := r[id].height;
    forall h | 0 <= h <= NewTop(top, from, to) && h != to ensures z'[h] == z[OldHeight(h, from, to)] {
      if to < h <= hi {
        assert z'[h - 1 + 1] == z[h - 1];
      }
    }
    forall k | 0 <= k < MAX_SHEETS && k != id ensures r[k].height == -1 || r[k].height != from {
      assert r[k].height >= 0 ==> z[r[k].height] == k;
    }
    forall h: int | h != from && 0 <= h <= top ensures NewHeight(h, from, to) == if to <= h < hi then h + 1 else h {
    }
  }

  lemma ShiftedDown(z: seq<nat>, r: seq<Sheet>, top: int, id: nat, to: int, hi: int, z': seq<nat>, r': seq<Sheet>)
    requires Ordered(z, r, top) && |z'| == MAX_SHEETS && id < MAX_SHEETS && 0 <= r[id].height <= hi <= top
    requires to == -1 || to == hi
    requires hi == if to >= 0 then to else top
    requires Shifted(r, r', id, to, r[id].height + 1, hi + 1, -1)
    requires (to >= 0 ==> z'[to] == id) && forall k :: r[id].height <= k < hi ==> z'[k] == z[k + 1]
    requires forall k :: 0 <= k < r[id].height || hi < k < MAX_SHEETS ==> z'[k] == z[k]
    ensures Moved(z, r, top, id, to, z', r')
  {
    var from := r[id].height;
    forall h | 0 <= h <= NewTop(top, from, to) && h != to ensures z'[h] == z[OldHeight(h, from, to)] {
      OldDown(h, top, from, to, hi);
      assert from <= h < hi ==> z'[h] == z[h + 1];
    }
    forall k | 0 <= k < MAX_SHEETS && k != id && r[k].height != -1
      ensures r'[k] == r[k].(height := NewHeight(r[k].height, from, to))
    {
      assert z[r[k].height] == k;
      NewDown(r[k].height, top, from, to, hi);
    }
  }

  lemma OldDown(h: int, top: int, from: int, to: int, hi: int)
    requires 0 <= from <= hi <= top && (to == -1 || to == hi) && hi == (if to >= 0 then to else top)
    requires 0 <= h <= NewTop(top, from, to) && h != to
    ensures OldHeight(h, from, to) == if from <= h < hi then h + 1 else h
  {
  }

  lemma NewDown(h: int, top: int, from: int, to: int, hi: int)
    requires 0 <= from <= hi <= top && (to == -1 || to == hi) && hi == (if to >= 0 then to else top)
    requires 0 <= h <= top && h != from
    ensures NewHeight(h, from, to) == if from < h <= hi then h - 1 else h
  {
  }

  /**
   * The C loop for a shown sheet asked to go to top + 1, which the clamp of sheet_updown lets through.
   * It pulls in the entry above the z-order; unless that happens to be the sheet itself, the sheet is lost.
   */
  method RaisePastTop(sheets: array<nat>, recs: array<Sheet>, top: int, id: nat)
    requires sheets as object != recs && Ordered(sheets[..], recs[..], top)
    requires id < MAX_SHEETS && 0 <= recs[id].height && top + 1 < MAX_SHEETS && sheets[top + 1] < MAX_SHEETS
    modifies sheets, recs
    ensures Ordered(sheets[..], recs[..], top) <==> old(sheets[top + 1]) == id
  {
    ghost var z, r := sheets[..], recs[..];
    var from := recs[id].height;
    recs[id] := recs[id].(height := top + 1);
    ShiftDown(sheets, recs, id, from, top);
    var moved := sheets[top + 1];
    sheets[top] := moved;
    recs[moved] := recs[moved].(height := top);
    sheets[top + 1] := id;
    if moved == id {
      ShiftedDown(z, r, top, id, top, top, sheets[..], recs[..]);
      MovedOrdered(z, r, top, id, top, sheets[..], recs[..]);
    } else {
      assert recs[..][id].height == top + 1;
    }
  }

  /** So it is lost whenever another sheet but the topmost one has just been hidden: that one is still listed above the top. */
  method HideThenRaisePastTop(sheets: array<nat>, recs: array<Sheet>, top: int, hidden: nat, raised: nat)
    requires sheets as object != recs && Ordered(sheets[..], recs[..], top)
    requires hidden < MAX_SHEETS && 0 <= recs[hidden].height < top
    requires raised < MAX_SHEETS && 0 <= recs[raised].height < top && raised != hidden
    modifies sheets, recs
    ensures !Ordered(sheets[..], recs[..], top - 1)
  {
    ghost var z, r := sheets[..], recs[..];
    Hide(sheets, recs, top, hidden);
    MovedOrdered(z, r, top, hidden, -1, sheets[..], recs[..]);
    RaisePastTop(sheets, recs, top - 1, raised);
  }

  /** The first n sheets are shown, each at the height of its number. */
  ghost predicate InTurn(recs: seq<Sheet>, n: nat) {
    |recs| == MAX_SHEETS && forall k :: 0 <= k < MAX_SHEETS ==> recs[k].height == if k < n then k else -1
  }

  lemma InTurnNext(z: seq<nat>, r: seq<Sheet>, id: nat, z': seq<nat>, r': seq<Sheet>)
    requires id < MAX_SHEETS && Ordered(z, r, id - 1) && InTurn(r, id) && |z'| == |r'| == MAX_SHEETS
    requires Moved(z, r, id - 1, id, id, z', r')
    ensures Ordered(z', r', id) && InTurn(r', id + 1)
  {
    MovedOrdered(z, r, id - 1, id, id, z', r');
  }

  /** From an empty z-order: three sheets shown, the lowest hidden, the next one sent to the top. */
  method RaisedAndLost(sheets: array<nat>, recs: array<Sheet>)
    requires sheets as object != recs && Ordered(sheets[..], recs[..], -1)
    modifies sheets, recs
    ensures !Ordered(sheets[..], recs[..], 1)
  {
    for id := 0 to 3
      invariant Ordered(sheets[..], recs[..], id - 1) && InTurn(recs[..], id)
    {
      ghost var z, r := sheets[..], recs[..];
      Show(sheets, recs, id - 1, id, id);
      InTurnNext(z, r, id, sheets[..], recs[..]);
    }
    HideThenRaisePastTop(sheets, recs, 2, 0, 1);
  }

  lemma NotShown(z: seq<nat>, recs: seq<Sheet>, top: int, id: nat)
    requires Ordered(z, recs, top) && id < MAX_SHEETS && recs[id].height == -1
    ensures forall x, y :: Owner(Shown(z, recs, top), x, y) != Some(ViewOf(id, recs[id]))
  {
    forall x, y | Owner(Shown(z, recs, top), x, y).Some?
      ensures Owner(Shown(z, recs, top), x, y).value != ViewOf(id, recs[id])
    {
      var h := OwnerMember(Shown(z, recs, top), x, y);
      assert recs[z[h]].height == h;
    }
  }
}
