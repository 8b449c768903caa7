/**
 * What a screen of stacked sheets should show: the naive painter, and the facts about
 * reordering a stack on which the partial redraws of the compositor rest.
 */
module Scene {
  import opened Basics

  /** A shown sheet: its identity, its buffer of w * h colours, its place and its transparent colour (-1: none). */
  datatype View = View(sid: byte, buf: seq<byte>, w: int, h: int, x: int, y: int, inv: int)

  predicate WellFormed(s: View) {
    s.w >= 0 && s.h >= 0 && |s.buf| == s.h * s.w
  }

  predicate Spans(s: View, x: int, y: int) {
    s.x <= x < s.x + s.w && s.y <= y < s.y + s.h
  }

  /** The colour of s at a screen pixel that it spans. */
  function Pixel(s: View, x: int, y: int): byte {
    var i := (y - s.y) * s.w + (x - s.x);
    if 0 <= i < |s.buf| then s.buf[i] else 0
  }

  predicate Opaque(s: View, x: int, y: int) {
    Spans(s, x, y) && (s.inv == -1 || Pixel(s, x, y) != s.inv)
  }

  /** The naive painter: the last sheet of the stack that is opaque at the pixel. */
  function Owner(stack: seq<View>, x: int, y: int): Option<View> {
    if stack == [] then None
    else if Opaque(stack[|stack| - 1], x, y) then Some(stack[|stack| - 1])
    else Owner(stack[..|stack| - 1], x, y)
  }

  /** The sheet at height h is opaque at the pixel, and none above it is. */
  ghost predicate TopmostAt(stack: seq<View>, x: int, y: int, h: int) {
    0 <= h < |stack| && Opaque(stack[h], x, y) && forall k :: h < k < |stack| ==> !Opaque(stack[k], x, y)
  }

  lemma {:induction false} OwnerIsTopmost(stack: seq<View>, x: int, y: int, s: View)
    ensures Owner(stack, x, y) == Some(s) <==> exists h :: TopmostAt(stack, x, y, h) && stack[h] == s
  {
    if stack != [] {
      var n := |stack| - 1;
      if Opaque(stack[n], x, y) {
        assert TopmostAt(stack, x, y, n);
      } else {
        OwnerIsTopmost(stack[..n], x, y, s);
        forall h ensures TopmostAt(stack, x, y, h) <==> TopmostAt(stack[..n], x, y, h) {
          TopmostBelow(stack, x, y, h);
        }
        assert forall h :: TopmostAt(stack[..n], x, y, h) ==> stack[..n][h] == stack[h];
      }
    }
  }

  lemma TopmostBelow(stack: seq<View>, x: int, y: int, h: int)
    requires stack != [] && !Opaque(stack[|stack| - 1], x, y)
    ensures TopmostAt(stack, x, y, h) <==> TopmostAt(stack[..|stack| - 1], x, y, h)
  {
    var n := |stack| - 1;
    assert forall k :: 0 <= k < n ==> stack[..n][k] == stack[k];
    if TopmostAt(stack[..n], x, y, h) {
      assert forall k :: h < k < n ==> !Opaque(stack[..n][k], x, y);
    }
  }

  lemma {:induction false} OwnerConcat(a: seq<View>, b: seq<View>, x: int, y: int)
    ensures Owner(a + b, x, y) == if Owner(b, x, y).Some? then Owner(b, x, y) else Owner(a, x, y)
  {
    if b == [] {
      assert a + b == a;
    } else {
      OwnerConcat(a, b[..|b| - 1], x, y);
      assert (a + b)[..|a + b| - 1] == a + b[..|b| - 1];
    }
  }

  lemma OwnerOne(s: View, x: int, y: int)
    ensures Owner([s], x, y) == if Opaque(s, x, y) then Some(s) else None
  {
  }

  // ---- moving a sheet within the stack ----

  /** Before and after moving s down from above b to below it. */
  lemma Lowered(a: seq<View>, s: View, b: seq<View>, c: seq<View>, x: int, y: int)
    ensures var before, after := Owner(a + b + [s] + c, x, y), Owner(a + [s] + b + c, x, y);
            && (!Opaque(s, x, y) ==> before == after)
            && (Owner(b + c, x, y).None? ==> before == after)
            && (after != before ==> after == Owner(b, x, y) && Owner(c, x, y).None?)
            && (Owner(b + c, x, y).Some? ==> after == Owner(b + c, x, y))
  {
    OwnerConcat(a + b + [s], c, x, y);
    OwnerConcat(a + b, [s], x, y);
    OwnerConcat(a, b, x, y);
    OwnerConcat(a + [s] + b, c, x, y);
    OwnerConcat(a + [s], b, x, y);
    OwnerConcat(a, [s], x, y);
    OwnerConcat(b, c, x, y);
    OwnerOne(s, x, y);
  }

  /** Before and after taking s out of the stack. */
  lemma Hidden(a: seq<View>, s: View, b: seq<View>, x: int, y: int)
    ensures var before, after := Owner(a + [s] + b, x, y), Owner(a + b, x, y);
            && (!Opaque(s, x, y) ==> before == after)
            && (after != before ==> after == Owner(a, x, y) && Owner(b, x, y).None?)
  {
    OwnerConcat(a + [s], b, x, y);
    OwnerConcat(a, [s], x, y);
    OwnerConcat(a, b, x, y);
    OwnerOne(s, x, y);
  }

  /** Before and after putting s into the stack. */
  lemma Inserted(a: seq<View>, s: View, c: seq<View>, x: int, y: int)
    ensures var before, after := Owner(a + c, x, y), Owner(a + [s] + c, x, y);
            && (!Opaque(s, x, y) ==> before == after)
            && (Owner([s] + c, x, y).None? ==> before == after)
            && (after != before ==> after == Some(s) && Owner(c, x, y).None?)
            && (Owner([s] + c, x, y).Some? ==> after == Owner([s] + c, x, y))
  {
    OwnerConcat(a, c, x, y);
    OwnerConcat(a + [s], c, x, y);
    OwnerConcat(a, [s], x, y);
    OwnerConcat([s], c, x, y);
    OwnerOne(s, x, y);
  }

  /** Before and after moving s up from below b to above it. */
  lemma Raised(a: seq<View>, s: View, b: seq<View>, c: seq<View>, x: int, y: int)
    ensures var before, after := Owner(a + [s] + b + c, x, y), Owner(a + b + [s] + c, x, y);
            && (!Opaque(s, x, y) ==> before == after)
            && (Owner([s] + c, x, y).None? ==> before == after)
            && (after != before ==> after == Some(s) && Owner(c, x, y).None?)
            && (Owner([s] + c, x, y).Some? ==> after == Owner([s] + c, x, y))
  {
    Inserted(a + b, s, c, x, y);
    Lowered(a, s, b, c, x, y);
    OwnerConcat(b, c, x, y);
    OwnerConcat(a + b, c, x, y);
    OwnerConcat(a, b, x, y);
  }

  /** Before and after s moves elsewhere on the screen and becomes s'. */
  lemma Slid(a: seq<View>, s: View, s': View, b: seq<View>, x: int, y: int)
    ensures var before, after := Owner(a + [s] + b, x, y), Owner(a + [s'] + b, x, y);
            && (!Opaque(s, x, y) && !Opaque(s', x, y) ==> before == after)
            && (Owner(b, x, y).Some? ==> after == before == Owner(b, x, y))
            && (Owner(b, x, y).None? ==> after == if Opaque(s', x, y) then Some(s') else Owner(a, x, y))
            && (Owner(b, x, y).None? && !Opaque(s, x, y) ==> before == Owner(a, x, y))
            && Owner([s'] + b, x, y) == if Owner(b, x, y).Some? then Owner(b, x, y) else Owner([s'], x, y)
  {
    OwnerConcat(a + [s], b, x, y);
    OwnerConcat(a, [s], x, y);
    OwnerConcat(a + [s'], b, x, y);
    OwnerConcat(a, [s'], x, y);
    OwnerConcat([s'], b, x, y);
    OwnerOne(s, x, y);
    OwnerOne(s', x, y);
  }
}
