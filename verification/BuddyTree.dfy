/**
 * The complete binary tree behind the buddy allocator, and the word that the allocator keeps
 * at each node, as a function of the set of live nodes alone.
 *
 * n is the number of allocation units (a power of two); node 0 is the root; the nodes
 * are 0 .. 2n-2, the last n of them being the single units.
 */
module BuddyTree {
  import opened Arith
  import opened Basics
  import opened Bits

  function Ls(i: nat): nat { 2 * i + 1 }

  function Rs(i: nat): nat { 2 * (i + 1) }

  function Fa(i: nat): nat
    requires i > 0
  {
    (i + 1) / 2 - 1
  }

  /** How many units node i spans. */
  function Len(n: nat, i: nat): nat {
    if i == 0 then n else Len(n, Fa(i)) / 2
  }

  /** The first unit node i spans. */
  function Lo(n: nat, i: nat): nat {
    if i == 0 then 0 else Lo(n, Fa(i)) + (if i % 2 == 1 then 0 else Len(n, i))
  }

  predicate Covers(n: nat, i: nat, unit: int) {
    Lo(n, i) <= unit < Lo(n, i) + Len(n, i)
  }

  /** Node i lies in the subtree of node a. */
  predicate Under(a: nat, i: nat) {
    i == a || (i > a && Under(a, Fa(i)))
  }

  ghost predicate Clear(live: set<nat>, i: nat) {
    forall b :: b in live ==> !Under(i, b)
  }

  /** The live nodes are nodes of the tree, and none lies under another. */
  ghost predicate Placed(n: nat, live: set<nat>) {
    && (forall b :: b in live ==> b < 2 * n - 1)
    && (forall b, c :: b in live && c in live && Under(b, c) ==> b == c)
  }

  /** What `longest[i]` holds when exactly the nodes in `live` are allocated. */
  ghost function Canon(n: nat, live: set<nat>, i: nat): nat
    decreases 2 * n - i
  {
    if i in live then 0
    else if i + 1 >= n || Clear(live, i) then Len(n, i)
    else Max(Canon(n, live, Ls(i)), Canon(n, live, Rs(i)))
  }

  // ---- geometry ----

  /** A node spans as much as its parent does in a tree half the size. */
  lemma {:induction false} LenHalved(n: nat, i: nat)
    requires i > 0
    ensures Len(n, i) == Len(n / 2, Fa(i))
  {
    if Fa(i) > 0 {
      LenHalved(n, Fa(i));
    }
  }

  lemma {:induction false} LenIsPow2(n: nat, i: nat)
    requires IsPow2(n) && i < 2 * n - 1
    ensures IsPow2(Len(n, i))
    ensures i + 1 >= n <==> Len(n, i) == 1
  {
    if i > 0 {
      LenHalved(n, i);
      LenIsPow2(n / 2, Fa(i));
    }
  }

  lemma {:induction false} Geometry(n: nat, i: nat)
    requires IsPow2(n) && i < 2 * n - 1
    ensures IsPow2(Len(n, i))
    ensures (i + 1) * Len(n, i) == n + Lo(n, i)
    ensures Lo(n, i) + Len(n, i) <= n
    ensures i + 1 >= n <==> Len(n, i) == 1
  {
    LenIsPow2(n, i);
    if i > 0 {
      var p := Fa(i);
      LenIsPow2(n, p);
      Geometry(n, p);
      var h := Len(n, i);
      assert Len(n, p) == 2 * h;
      ChildIndex(p, h);
      assert i + 1 == 2 * (p + 1) + if i % 2 == 1 then 0 else 1;
    }
  }

  lemma ChildIndex(p: nat, h: nat)
    ensures (2 * (p + 1)) * h == (p + 1) * (2 * h)
    ensures (2 * (p + 1) + 1) * h == (p + 1) * (2 * h) + h
  {
  }

  lemma Children(n: nat, i: nat)
    requires IsPow2(n) && i + 1 < n
    ensures Len(n, i) >= 2 && Len(n, i) % 2 == 0
    ensures Len(n, Ls(i)) == Len(n, Rs(i)) == Len(n, i) / 2
    ensures Lo(n, Ls(i)) == Lo(n, i) && Lo(n, Rs(i)) == Lo(n, i) + Len(n, i) / 2
  {
    LenIsPow2(n, i);
    FatherOf(i);
  }

  lemma FatherOf(i: nat)
    ensures Fa(Ls(i)) == i && Fa(Rs(i)) == i
    ensures Ls(i) % 2 == 1 && Rs(i) % 2 == 0
  {
  }

  // ---- the subtree order ----

  lemma {:induction false} UnderInside(n: nat, a: nat, i: nat)
    requires IsPow2(n) && i < 2 * n - 1 && Under(a, i)
    ensures Lo(n, a) <= Lo(n, i) && Lo(n, i) + Len(n, i) <= Lo(n, a) + Len(n, a)
    ensures i == a || (a + 1 < n && Len(n, i) < Len(n, a))
  {
    if i != a {
      UnderInside(n, a, Fa(i));
      Children(n, Fa(i));
    }
  }

  /** A node strictly below i lies in the left or in the right half. */
  lemma {:induction false} UnderChild(i: nat, b: nat)
    requires Under(i, b) && b != i
    ensures Under(Ls(i), b) || Under(Rs(i), b)
    ensures b >= Ls(i)
  {
    if Fa(b) != i {
      UnderChild(i, Fa(b));
    }
  }

  lemma {:induction false} UnderTrans(a: nat, b: nat, c: nat)
    requires Under(a, b) && Under(b, c)
    ensures Under(a, c)
  {
    if c != b {
      UnderTrans(a, b, Fa(c));
      UnderUp(a, Fa(c));
    }
  }

  lemma {:induction false} UnderUp(a: nat, i: nat)
    requires Under(a, i)
    ensures a <= i
  {
  }

  /** Two nodes of which neither lies under the other span disjoint units. */
  lemma {:induction false} Apart(n: nat, i: nat, j: nat)
    requires IsPow2(n) && i < 2 * n - 1 && j < 2 * n - 1
    requires !Under(i, j) && !Under(j, i)
    ensures Lo(n, i) + Len(n, i) <= Lo(n, j) || Lo(n, j) + Len(n, j) <= Lo(n, i)
    decreases i + j, if i < j then 1 else 0
  {
    if i < j {
      Apart(n, j, i);
    } else if i > 0 {
      var p := Fa(i);
      Children(n, p);
      if Under(p, j) {
        assert Under(p, i);
        UnderChild(p, j);
        assert j == Ls(p) && i == Rs(p);
      } else {
        assert !Under(j, p);
        Apart(n, p, j);
        assert Under(p, i);
        UnderInside(n, p, i);
      }
    }
  }

  // ---- alignment ----

  lemma {:induction false} Pow2Divides(h: nat, l: nat)
    requires IsPow2(h) && IsPow2(l) && l <= h
    ensures h % l == 0
  {
    if l > 1 {
      Pow2Divides(h / 2, l / 2);
      DoubleMultiple(h / 2, l / 2);
    }
  }

  lemma DoubleMultiple(h: nat, l: nat)
    requires l > 0 && h % l == 0
    ensures (2 * h) % (2 * l) == 0
  {
    var q := h / l;
    assert h == l * q;
    MultipleMod(q, 2 * l);
    assert 2 * h == q * (2 * l);
  }

  lemma Multiples(a: nat, h: nat, l: nat)
    requires l > 0 && a % l == 0 && h % l == 0
    ensures a < h ==> a + l <= h
    ensures a >= h ==> (a - h) % l == 0
  {
    var x, y := a / l, h / l;
    assert a == l * x && h == l * y;
    if a < h {
      Distribute(y, x, l);
      if y <= x { NonNegative(x - y, l); Distribute(x, y, l); assert false; }
      AtLeastOne(y - x, l);
    } else {
      Distribute(x, y, l);
      MultipleMod(x - y, l);
    }
  }

  lemma {:induction false} Pow2Gap(h: nat, l: nat)
    requires IsPow2(h) && IsPow2(l) && l < h
    ensures 2 * l <= h
  {
    if l > 1 {
      Pow2Gap(h / 2, l / 2);
    }
  }

  /** Every aligned run of a power-of-two length below node i is a node below i. */
  lemma {:induction false} Descend(n: nat, i: nat, off: nat, len: nat) returns (j: nat)
    requires IsPow2(n) && i < 2 * n - 1 && IsPow2(len) && len <= Len(n, i)
    requires Lo(n, i) <= off < Lo(n, i) + Len(n, i) && (off - Lo(n, i)) % len == 0
    ensures j < 2 * n - 1 && Under(i, j) && Lo(n, j) == off && Len(n, j) == len
    decreases Len(n, i)
  {
    LenIsPow2(n, i);
    Pow2Divides(Len(n, i), len);
    if len == Len(n, i) {
      Multiples(off - Lo(n, i), len, len);
      ModSmall(off - Lo(n, i), len);
      j := i;
    } else {
      Children(n, i);
      Pow2Gap(Len(n, i), len);
      var half := Len(n, i) / 2;
      LenIsPow2(n, Ls(i));
      Pow2Divides(half, len);
      Multiples(off - Lo(n, i), half, len);
      var c := if off < Lo(n, i) + half then Ls(i) else Rs(i);
      j := Descend(n, c, off, len);
      assert Under(i, c);
      UnderTrans(i, c, j);
    }
  }

  lemma ModSmall(a: nat, l: nat)
    requires a < l
    ensures a % l == a
  {
  }

  // ---- what the words mean ----

  /** The aligned run of len units from off is inside the arena and no live node touches it. */
  ghost predicate FreeAt(n: nat, live: set<nat>, off: nat, len: nat) {
    && len > 0 && off % len == 0 && off + len <= n
    && forall b :: b in live ==> off + len <= Lo(n, b) || Lo(n, b) + Len(n, b) <= off
  }

  lemma {:induction false} CanonBound(n: nat, live: set<nat>, i: nat)
    requires IsPow2(n) && i < 2 * n - 1 && Placed(n, live)
    ensures Canon(n, live, i) <= Len(n, i)
    ensures Canon(n, live, i) == Len(n, i) <==> Clear(live, i)
    decreases 2 * n - i
  {
    LenIsPow2(n, i);
    if i in live {
      assert Under(i, i);
    } else if i + 1 >= n {
      forall b | b in live ensures !Under(i, b) {
        if Under(i, b) { UnderChild(i, b); }
      }
    } else if !Clear(live, i) {
      Children(n, i);
      CanonBound(n, live, Ls(i));
      CanonBound(n, live, Rs(i));
    }
  }

  /** A node j with nothing live from it up to i shows in the word at i. */
  lemma {:induction false} CanonAtLeast(n: nat, live: set<nat>, i: nat, j: nat)
    requires IsPow2(n) && i < 2 * n - 1 && j < 2 * n - 1 && Under(i, j) && Placed(n, live)
    requires Clear(live, j) && forall b :: b in live && Under(b, j) ==> !Under(i, b)
    ensures Canon(n, live, i) >= Len(n, j)
    decreases 2 * n - i
  {
    UnderInside(n, i, j);
    CanonBound(n, live, i);
    if i != j && !Clear(live, i) {
      UnderChild(i, j);
      FatherOf(i);
      var c := if Under(Ls(i), j) then Ls(i) else Rs(i);
      forall b | b in live && Under(b, j) && Under(c, b) ensures false { UnderTrans(i, c, b); }
      CanonAtLeast(n, live, c, j);
    }
  }

  /** Only what is live below i matters at i. */
  lemma {:induction false} CanonFrame(n: nat, live: set<nat>, live': set<nat>, i: nat)
    requires forall b :: Under(i, b) ==> (b in live <==> b in live')
    ensures Canon(n, live, i) == Canon(n, live', i)
    decreases 2 * n - i
  {
    assert Under(i, i);
    if i + 1 < n {
      forall b | Under(Ls(i), b) || Under(Rs(i), b) ensures Under(i, b) {
        FatherOf(i);
        if Under(Ls(i), b) { UnderTrans(i, Ls(i), b); } else { UnderTrans(i, Rs(i), b); }
      }
      CanonFrame(n, live, live', Ls(i));
      CanonFrame(n, live, live', Rs(i));
    }
  }

  /** A node none of whose ancestors, descendants or itself is live is a free run, and conversely. */
  lemma FreeNode(n: nat, live: set<nat>, j: nat)
    requires IsPow2(n) && j < 2 * n - 1 && Placed(n, live)
    ensures FreeAt(n, live, Lo(n, j), Len(n, j)) <==>
            Clear(live, j) && forall b :: b in live ==> !Under(b, j)
  {
    Geometry(n, j);
    LoMultiple(n, j, Len(n, j));
    forall b | b in live
      ensures Under(j, b) || Under(b, j) <==>
              !(Lo(n, j) + Len(n, j) <= Lo(n, b) || Lo(n, b) + Len(n, b) <= Lo(n, j))
    {
      Geometry(n, b);
      if Under(j, b) { UnderInside(n, j, b); }
      if Under(b, j) { UnderInside(n, b, j); }
      if !Under(j, b) && !Under(b, j) { Apart(n, j, b); }
    }
  }

  /** A free run starting below node i shows in the word at i. */
  lemma FreeShows(n: nat, live: set<nat>, i: nat, off: nat, len: nat)
    requires IsPow2(n) && i < 2 * n - 1 && Placed(n, live) && IsPow2(len) && len <= Len(n, i)
    requires FreeAt(n, live, off, len) && Lo(n, i) <= off < Lo(n, i) + Len(n, i)
    ensures Canon(n, live, i) >= len
  {
    LoMultiple(n, i, len);
    Multiples(off, Lo(n, i), len);
    var j := Descend(n, i, off, len);
    FreeNode(n, live, j);
    CanonAtLeast(n, live, i, j);
  }

  lemma {:induction false} LoMultiple(n: nat, i: nat, len: nat)
    requires IsPow2(n) && i < 2 * n - 1 && IsPow2(len) && len <= Len(n, i)
    ensures Lo(n, i) % len == 0
  {
    if i > 0 {
      Children(n, Fa(i));
      LoMultiple(n, Fa(i), len);
      LenIsPow2(n, i);
      Pow2Divides(Len(n, i), len);
      SumMultiple(Lo(n, Fa(i)), Len(n, i), len);
    }
  }

  lemma SumMultiple(a: nat, h: nat, l: nat)
    requires l > 0 && a % l == 0 && h % l == 0
    ensures (a + h) % l == 0
  {
    var x, y := a / l, h / l;
    Distribute(x, -y, l);
    assert a + h == (x + y) * l;
    MultipleMod(x + y, l);
  }

  /** The word at a node outside every live one is the length of a free run below the node. */
  lemma {:induction false} CanonIsFree(n: nat, live: set<nat>, i: nat) returns (j: nat)
    requires IsPow2(n) && i < 2 * n - 1 && Placed(n, live)
    requires (forall b :: b in live ==> !Under(b, i)) && Canon(n, live, i) > 0
    ensures j < 2 * n - 1 && Under(i, j) && Len(n, j) == Canon(n, live, i)
    ensures FreeAt(n, live, Lo(n, j), Len(n, j))
    decreases 2 * n - i
  {
    CanonBound(n, live, i);
    if Clear(live, i) {
      j := i;
      FreeNode(n, live, j);
    } else {
      Children(n, i);
      FatherOf(i);
      var c := if Canon(n, live, Ls(i)) > Canon(n, live, Rs(i)) then Ls(i) else Rs(i);
      j := CanonIsFree(n, live, c);
      UnderTrans(i, c, j);
    }
  }

  /** The root word is the length of the largest free aligned run. */
  lemma RootIsLargest(n: nat, live: set<nat>)
    requires IsPow2(n) && Placed(n, live) && 0 !in live
    ensures Canon(n, live, 0) > 0 ==> exists off: nat :: FreeAt(n, live, off, Canon(n, live, 0))
    ensures forall off: nat, len: nat :: IsPow2(len) && FreeAt(n, live, off, len) ==> len <= Canon(n, live, 0)
  {
    forall b | b in live ensures !Under(b, 0) {}
    if Canon(n, live, 0) > 0 {
      var j := CanonIsFree(n, live, 0);
    }
    forall off: nat, len: nat | IsPow2(len) && FreeAt(n, live, off, len)
      ensures len <= Canon(n, live, 0)
    {
      FreeShows(n, live, 0, off, len);
    }
  }

  // ---- steps of the loops ----

  /** Along the array the length halves exactly where i + 1 is a power of two. */
  lemma {:induction false} NextLen(n: nat, i: nat)
    requires i > 0
    ensures Len(n, i) == if IsPow2(i + 1) then Len(n, i - 1) / 2 else Len(n, i - 1)
  {
    if i > 2 && i % 2 == 1 {
      NextLen(n, Fa(i));
      assert Fa(i - 1) == Fa(i) - 1 && (i + 1) / 2 == Fa(i) + 1;
    } else if i % 2 == 0 {
      assert Fa(i - 1) == Fa(i);
    }
  }

  lemma NextSize(n: nat, i: nat, size: nat)
    requires size == if i > 0 then Len(n, i - 1) else 2 * n
    ensures Len(n, i) == if Check(i + 1) then size / 2 else size
  {
    if i > 0 { NextLen(n, i); }
  }

  /** Which node the aligned run of len units from off is. */
  function NodeAt(n: nat, off: nat, len: nat): int
    requires len > 0
  {
    (off + n) / len - 1
  }

  lemma NodeAtNode(n: nat, i: nat)
    requires IsPow2(n) && i < 2 * n - 1
    ensures Len(n, i) > 0 && NodeAt(n, Lo(n, i), Len(n, i)) == i
  {
    Geometry(n, i);
    ExactQuotient(i + 1, Len(n, i));
  }

  lemma FitsArena(n: nat, live: set<nat>, len: nat)
    requires IsPow2(n) && Placed(n, live) && IsPow2(len) && exists off: nat :: FreeAt(n, live, off, len)
    ensures Canon(n, live, 0) >= len
  {
    var off: nat :| FreeAt(n, live, off, len);
    FreeShows(n, live, 0, off, len);
  }

  /** Going down from a node with room: one child has room, and the left one whenever it holds the lowest. */
  lemma DescentStep(n: nat, live: set<nat>, i: nat, want: nat)
    requires IsPow2(n) && i < 2 * n - 1 && Placed(n, live) && IsPow2(want)
    requires Canon(n, live, i) >= want && Len(n, i) > want && forall b :: b in live ==> !Under(b, i)
    ensures i + 1 < n && Len(n, Ls(i)) == Len(n, Rs(i)) == Len(n, i) / 2 >= want
    ensures Canon(n, live, Ls(i)) >= want || Canon(n, live, Rs(i)) >= want
    ensures Lo(n, Ls(i)) == Lo(n, i)
    ensures Canon(n, live, Ls(i)) < want ==>
              forall off: nat :: FreeAt(n, live, off, want) && off >= Lo(n, i) ==> off >= Lo(n, Rs(i))
    ensures forall c, b :: (c == Ls(i) || c == Rs(i)) && b in live && Under(b, c) ==> Canon(n, live, c) == 0
  {
    LenIsPow2(n, i);
    Pow2Gap(Len(n, i), want);
    Children(n, i);
    FatherOf(i);
    if Clear(live, i) {
      forall b | b in live && Under(Ls(i), b) ensures false { UnderTrans(i, Ls(i), b); }
      assert Clear(live, Ls(i));
      CanonBound(n, live, Ls(i));
    }
    forall off: nat | FreeAt(n, live, off, want) && Lo(n, i) <= off < Lo(n, Rs(i))
      ensures Canon(n, live, Ls(i)) >= want
    {
      FreeShows(n, live, Ls(i), off, want);
    }
  }

  /** Every word is right except those strictly above node i. */
  ghost predicate RightBut(n: nat, live: set<nat>, words: seq<nat>, i: nat) {
    && IsPow2(n) && |words| == 2 * n && i < 2 * n - 1
    && forall j :: 0 <= j < 2 * n - 1 && (j == i || !Under(j, i)) ==> words[j] == Canon(n, live, j)
  }

  /** Every word is right. */
  ghost predicate AllRight(n: nat, live: set<nat>, words: seq<nat>) {
    && IsPow2(n) && |words| == 2 * n
    && forall j :: 0 <= j < 2 * n - 1 ==> words[j] == Canon(n, live, j)
  }

  lemma {:induction false} StepUp(n: nat, live: set<nat>, words: seq<nat>, i: nat, v: nat)
    requires RightBut(n, live, words, i) && i > 0 && v == Canon(n, live, Fa(i))
    ensures RightBut(n, live, words[Fa(i) := v], Fa(i))
  {
  }

  lemma {:induction false} AtRoot(n: nat, live: set<nat>, words: seq<nat>)
    requires RightBut(n, live, words, 0)
    ensures AllRight(n, live, words)
  {
  }

  /** Allocating node i: its own word becomes 0, and only the words above it are then out of date. */
  lemma Take(n: nat, live: set<nat>, words: seq<nat>, i: nat)
    requires AllRight(n, live, words) && Placed(n, live) && i < 2 * n - 1
    requires Clear(live, i) && forall b :: b in live ==> !Under(b, i)
    ensures Placed(n, live + {i}) && RightBut(n, live + {i}, words[i := 0], i)
    ensures forall p :: Under(p, i) && p != i ==> p !in live + {i} && !Clear(live + {i}, p)
  {
    var words' := words[i := 0];
    forall j | 0 <= j < 2 * n - 1 && (j == i || !Under(j, i))
      ensures words'[j] == Canon(n, live + {i}, j)
    {
      if j != i { CanonFrame(n, live, live + {i}, j); }
    }
  }

  /** Both children of the next node up are right. */
  lemma Siblings(n: nat, live: set<nat>, words: seq<nat>, i: nat)
    requires RightBut(n, live, words, i) && i > 0
    ensures Fa(i) + 1 < n
    ensures words[Ls(Fa(i))] == Canon(n, live, Ls(Fa(i))) && words[Rs(Fa(i))] == Canon(n, live, Rs(Fa(i)))
  {
    var s := if i % 2 == 1 then Rs(Fa(i)) else Ls(Fa(i));
    FatherOf(Fa(i));
    if Under(s, i) {
      UnderUp(s, Fa(i));
    }
  }

  lemma Father(a: nat, i: nat)
    requires Under(a, i) && a > 0
    ensures Under(Fa(a), i) && Fa(a) != i
  {
    UnderUp(a, i);
    UnderTrans(Fa(a), a, i);
  }

  /** With nothing allocated every word is the length of its node. */
  ghost function Fresh(n: nat): seq<nat>
    requires n > 0
  {
    seq(2 * n - 1, i requires 0 <= i < 2 * n - 1 => Len(n, i))
  }

  lemma EmptyIsFresh(n: nat, words: seq<nat>)
    requires n > 0 && |words| == 2 * n
    ensures AllRight(n, {}, words) <==> IsPow2(n) && words[..2 * n - 1] == Fresh(n)
  {
    if IsPow2(n) && words[..2 * n - 1] == Fresh(n) {
      forall j | 0 <= j < 2 * n - 1 ensures words[j] == Canon(n, {}, j) {
        assert words[j] == words[..2 * n - 1][j];
      }
    }
  }

  // ---- releasing ----

  lemma UnitLeaf(n: nat, unit: nat)
    requires IsPow2(n) && unit < n
    ensures Lo(n, unit + n - 1) == unit && Len(n, unit + n - 1) == 1
  {
    Geometry(n, unit + n - 1);
  }

  /** A node spans a unit iff it is the unit's leaf or above it. */
  lemma CoversIsAbove(n: nat, i: nat, unit: nat)
    requires IsPow2(n) && i < 2 * n - 1 && unit < n
    ensures Covers(n, i, unit) <==> Under(i, unit + n - 1)
  {
    var leaf := unit + n - 1;
    UnitLeaf(n, unit);
    if Under(i, leaf) {
      UnderInside(n, i, leaf);
    } else if Under(leaf, i) {
      UnderChild(leaf, i);
    } else {
      Apart(n, i, leaf);
    }
  }

  /** Going up from a unit's leaf, the first zero word is at the live node spanning the unit. */
  lemma FirstZero(n: nat, live: set<nat>, unit: nat, i: nat)
    requires IsPow2(n) && Placed(n, live) && unit < n && Under(i, unit + n - 1)
    requires forall b :: b in live && Under(b, unit + n - 1) ==> Under(b, i)
    requires Canon(n, live, i) == 0
    ensures i in live
  {
    var leaf := unit + n - 1;
    UnitLeaf(n, unit);
    UnderInside(n, i, leaf);
    if i !in live {
      forall b | b in live && Under(b, leaf) ensures !Under(i, b) {
        UnderUp(b, i);
        if Under(i, b) { UnderUp(i, b); }
      }
      forall b | b in live ensures !Under(leaf, b) {
        if Under(leaf, b) && b != leaf { UnderChild(leaf, b); }
      }
      CanonAtLeast(n, live, i, leaf);
    }
  }

  /** Releasing live node i: its word becomes its length, and only the words above it are then out of date. */
  lemma Drop(n: nat, live: set<nat>, words: seq<nat>, i: nat)
    requires AllRight(n, live, words) && Placed(n, live) && i in live
    ensures Placed(n, live - {i}) && RightBut(n, live - {i}, words[i := Len(n, i)], i)
    ensures forall p :: Under(p, i) && p != i ==> p !in live - {i}
  {
    var words' := words[i := Len(n, i)];
    forall j | 0 <= j < 2 * n - 1 && (j == i || !Under(j, i))
      ensures words'[j] == Canon(n, live - {i}, j)
    {
      if j != i { CanonFrame(n, live, live - {i}, j); }
    }
  }

  /** Merging: two full halves make a full node, otherwise the larger half is what is left. */
  lemma Merge(n: nat, live: set<nat>, p: nat)
    requires IsPow2(n) && p + 1 < n && Placed(n, live) && p !in live
    ensures var l, r := Canon(n, live, Ls(p)), Canon(n, live, Rs(p));
            Canon(n, live, p) == if l + r == Len(n, p) then Len(n, p) else Max(l, r)
  {
    Children(n, p);
    FatherOf(p);
    CanonBound(n, live, p);
    CanonBound(n, live, Ls(p));
    CanonBound(n, live, Rs(p));
    if Clear(live, p) {
      forall b | b in live ensures !Under(Ls(p), b) && !Under(Rs(p), b) {
        if Under(Ls(p), b) { UnderTrans(p, Ls(p), b); }
        if Under(Rs(p), b) { UnderTrans(p, Rs(p), b); }
      }
    } else {
      var b :| b in live && Under(p, b);
      UnderChild(p, b);
    }
  }

  // ---- counting ----

  ghost predicate UsedAt(n: nat, live: set<nat>, k: nat, unit: nat) {
    exists b :: b in live && b < k && Covers(n, b, unit)
  }

  /** The units that some live node below k spans. */
  ghost function Used(n: nat, live: set<nat>, k: nat): set<nat> {
    set unit: nat | unit < n && UsedAt(n, live, k, unit)
  }

  /** Live nodes span disjoint units, so each adds its whole length. */
  lemma UsedNext(n: nat, live: set<nat>, k: nat)
    requires IsPow2(n) && Placed(n, live) && k < 2 * n - 1
    ensures |Used(n, live, k + 1)| == |Used(n, live, k)| + (if k in live then Len(n, k) else 0)
  {
    var mine := if k in live then Span(Lo(n, k), Len(n, k)) else {};
    Geometry(n, k);
    forall unit: nat | unit < n
      ensures UsedAt(n, live, k + 1, unit) <==> UsedAt(n, live, k, unit) || unit in mine
      ensures !(UsedAt(n, live, k, unit) && unit in mine)
    {
      UsedStep(n, live, k, unit);
    }
    UnionSize(Used(n, live, k), mine, Used(n, live, k + 1));
  }

  lemma UsedStep(n: nat, live: set<nat>, k: nat, unit: nat)
    requires IsPow2(n) && Placed(n, live) && k < 2 * n - 1
    ensures UsedAt(n, live, k + 1, unit) <==> UsedAt(n, live, k, unit) || (k in live && Covers(n, k, unit))
    ensures !(UsedAt(n, live, k, unit) && k in live && Covers(n, k, unit))
  {
    if k in live && Covers(n, k, unit) && UsedAt(n, live, k, unit) {
      var b :| b in live && b < k && Covers(n, b, unit);
      Apart(n, b, k);
    }
  }

  lemma UnionSize(a: set<nat>, b: set<nat>, c: set<nat>)
    requires a !! b && forall x :: x in c <==> x in a || x in b
    ensures |c| == |a| + |b|
  {
    assert c == a + b;
  }

  /** The test by which the words alone give away a live node. */
  lemma LiveByWords(n: nat, live: set<nat>, i: nat)
    requires IsPow2(n) && i < 2 * n - 1 && Placed(n, live)
    ensures i in live <==>
            Canon(n, live, i) == 0 && (i + 1 >= n || (Canon(n, live, Ls(i)) != 0 && Canon(n, live, Rs(i)) != 0))
  {
    LenIsPow2(n, i);
    if i in live && i + 1 < n {
      Children(n, i);
      FatherOf(i);
      forall c, b | (c == Ls(i) || c == Rs(i)) && b in live ensures !Under(c, b) {
        if Under(c, b) { UnderTrans(i, c, b); UnderUp(c, b); }
      }
      CanonBound(n, live, Ls(i));
      CanonBound(n, live, Rs(i));
    }
  }
}
