/** Best and worst fit: free lists kept in order of size by sorting after every insertion. */
module SizedFit {
  import opened FreeLists
  import opened HoleSort
  import opened JoinPass

  function Without(s: seq<FreeInfo>, i: nat): (r: seq<FreeInfo>)
    requires i < |s|
    ensures |r| == |s| - 1
  {
    s[..i] + s[i + 1..]
  }

  function With(s: seq<FreeInfo>, i: nat, e: FreeInfo): (r: seq<FreeInfo>)
    requires i <= |s|
    ensures |r| == |s| + 1
  {
    s[..i] + [e] + s[i..]
  }

  lemma WithHolds(s: seq<FreeInfo>, i: nat, e: FreeInfo)
    requires i <= |s|
    ensures multiset(With(s, i, e)) == multiset(s) + multiset{e}
  {
    assert s == s[..i] + s[i..];
  }

  ghost predicate SomeFits(s: seq<FreeInfo>, size: nat) { exists e :: e in s && e.size >= size }

  /** Entry i fits, and no fitting entry is larger (worst fit) or smaller (best fit). */
  ghost predicate BestChoice(s: seq<FreeInfo>, i: nat, size: nat, worst: bool) {
    && i < |s| && s[i].size >= size
    && forall f :: f in s && f.size >= size ==> if worst then f.size <= s[i].size else s[i].size <= f.size
  }

  /** Entry i is gone, and what is left of it has been put back. */
  ghost predicate TakenFrom(was: seq<FreeInfo>, i: nat, size: nat, now: seq<FreeInfo>)
    requires i < |was| && was[i].size >= size
  {
    var closed, rest := Without(was, i), FreeInfo(was[i].addr + size, was[i].size - size);
    if rest.size == 0 then now == closed else Absorbed(closed, rest, now)
  }

  lemma StillSorted(o: Order, s: seq<FreeInfo>, i: nat)
    requires i < |s| && Sorted(o, s)
    ensures Sorted(o, Without(s, i))
  {
    var r := Without(s, i);
    forall j, k | 0 <= j < k < |r| ensures Key(o, r[j]) <= Key(o, r[k]) {
      assert r[j] == s[if j < i then j else j + 1] && r[k] == s[if k < i then k else k + 1];
    }
  }

  /** In a list ordered by size, the first entry that fits is the choice. */
  lemma FirstFits(s: seq<FreeInfo>, i: nat, size: nat, worst: bool)
    requires Sorted(if worst then BySizeDown else BySizeUp, s) && i < |s| && s[i].size >= size
    requires if worst then i == 0 else forall k :: 0 <= k < i ==> s[k].size < size
    ensures SomeFits(s, size) && BestChoice(s, i, size, worst)
  {
    var o := if worst then BySizeDown else BySizeUp;
    assert s[i] in s;
    forall f | f in s && f.size >= size ensures if worst then f.size <= s[i].size else s[i].size <= f.size {
      var k :| 0 <= k < |s| && s[k] == f;
      assert k != i ==> Key(o, s[i]) <= Key(o, s[k]);
    }
  }

  /** Byte x is free. */
  ghost predicate ByteFree(s: seq<FreeInfo>, x: int) { exists f :: f in s && f.addr <= x < f.addr + f.size }

  lemma WithoutMembers(s: seq<FreeInfo>, i: nat)
    requires Tidy(s) && i < |s|
    ensures forall f :: f in Without(s, i) <==> f in s && f != s[i]
  {
    var r := Without(s, i);
    forall f ensures f in r <==> f in s && f != s[i] {
      if f in s && f != s[i] {
        var k :| 0 <= k < |s| && s[k] == f;
        assert r[if k < i then k else k - 1] == f;
      }
      if f in r {
        var k :| 0 <= k < |r| && r[k] == f;
        var j := if k < i then k else k + 1;
        assert s[j] == f && s[i] in s;
        if f == s[i] {
          Twice(s, if j < i then j else i, if j < i then i else j);
        }
      }
    }
  }

  lemma RestApart(s: seq<FreeInfo>, i: nat, size: nat)
    requires Tidy(s) && i < |s| && s[i].size > size
    ensures var closed, rest := Without(s, i), FreeInfo(s[i].addr + size, s[i].size - size);
            forall f, g :: f in closed + [rest] && g in closed + [rest] ==> !Adjoins(f, g)
  {
    WithoutMembers(s, i);
    assert s[i] in s;
  }

  /** From a list of blocks that do not touch, exactly the bytes given out are gone afterwards. */
  lemma TakenBytes(was: seq<FreeInfo>, i: nat, size: nat, now: seq<FreeInfo>)
    requires Tidy(was) && i < |was| && was[i].size >= size && TakenFrom(was, i, size, now)
    ensures forall x :: ByteFree(now, x) <==> ByteFree(was, x) && !(was[i].addr <= x < was[i].addr + size)
  {
    var e, closed, rest := was[i], Without(was, i), FreeInfo(was[i].addr + size, was[i].size - size);
    WithoutMembers(was, i);
    assert e in was;
    if rest.size == 0 {
      assert forall f :: f in now <==> f in was && f != e;
    } else {
      RestApart(was, i, size);
      AbsorbedApart(closed, rest, now);
      InSum(closed, rest, now);
    }
    forall x ensures ByteFree(now, x) <==> ByteFree(was, x) && !(e.addr <= x < e.addr + size) {
      TakenByte(was, e, size, rest, now, x);
    }
  }

  lemma InSum(s: seq<FreeInfo>, e: FreeInfo, now: seq<FreeInfo>)
    requires multiset(now) == multiset(s) + multiset{e}
    ensures forall f :: f in now <==> f in s || f == e
  {
    forall f ensures f in now <==> f in s || f == e {
      assert f in now <==> f in multiset(now);
      assert f in s <==> f in multiset(s);
    }
  }

  lemma TakenByte(was: seq<FreeInfo>, e: FreeInfo, size: nat, rest: FreeInfo, now: seq<FreeInfo>, x: int)
    requires Tidy(was) && e in was && e.size >= size && rest == FreeInfo(e.addr + size, e.size - size)
    requires forall f :: f in now <==> (f in was && f != e) || (rest.size != 0 && f == rest)
    ensures ByteFree(now, x) <==> ByteFree(was, x) && !(e.addr <= x < e.addr + size)
  {
    if ByteFree(was, x) && !(e.addr <= x < e.addr + size) {
      var f :| f in was && f.addr <= x < f.addr + f.size;
      assert (if f == e then rest else f) in now;
    }
    if ByteFree(now, x) {
      var f :| f in now && f.addr <= x < f.addr + f.size;
      assert f == rest ==> e.addr <= x < e.addr + e.size;
    }
  }

  class MemMan {
    const worst: bool   // TYPE 3 (largest first) rather than TYPE 2 (smallest first)
    const free: array<FreeInfo>
    var frees: nat
    var lostsize: nat
    var losts: nat

    ghost function List(): seq<FreeInfo>
      reads this, free
      requires frees <= free.Length
    {
      free[..frees]
    }

    function BySize(): Order { if worst then BySizeDown else BySizeUp }

    ghost predicate Valid()
      reads this, free
    {
      free.Length == MEMMAN_FREES && frees <= MEMMAN_FREES && Sorted(BySize(), List())
    }

    constructor (largestFirst: bool)
      ensures Valid() && List() == [] && worst == largestFirst && fresh(free)
    {
      worst := largestFirst;
      free := new FreeInfo[MEMMAN_FREES](_ => FreeInfo(0, 0));
      frees, lostsize, losts := 0, 0, 0;
    }

    method RemoveAt(i0: nat)
      requires free.Length == MEMMAN_FREES && i0 < frees <= MEMMAN_FREES
      modifies this`frees, free
      ensures frees == old(frees) - 1 && List() == Without(old(List()), i0)
    {
      ghost var was := List();
      frees := frees - 1;
      var i := i0;
      while i < frees
        invariant i0 <= i <= frees == |was| - 1
        invariant forall k :: i0 <= k < i ==> free[k] == was[k + 1]
        invariant forall k :: 0 <= k < i0 || i <= k <= frees ==> free[k] == was[k]
      {
        free[i] := free[i + 1];
        i := i + 1;
      }
    }

    /** A largest entry (worst fit), or a smallest of those that fit (best fit); 0 when none fits. */
    method Alloc(size: nat) returns (a: nat)
      requires Valid()
      modifies this, free
      ensures Valid() && losts == old(losts) && lostsize == old(lostsize)
      ensures SomeFits(old(List()), size) ==>
                exists i: nat :: BestChoice(old(List()), i, size, worst) && a == old(List())[i].addr
                            && TakenFrom(old(List()), i, size, List())
      ensures SomeFits(old(List()), size) ==>
                exists e :: e in old(List()) && a == e.addr && e.size >= size
                       && forall f :: f in old(List()) && f.size >= size ==> if worst then f.size <= e.size else e.size <= f.size
      ensures Tidy(old(List())) && SomeFits(old(List()), size) ==>
                forall x :: ByteFree(List(), x) <==> ByteFree(old(List()), x) && !(a <= x < a + size)
      ensures !SomeFits(old(List()), size) ==> a == 0 && List() == old(List())
    {
      hide TakenFrom, Tidy, ByteFree;
      ghost var was := List();
      if worst {
        if frees > 0 && free[0].size >= size {
          FirstFits(was, 0, size, worst);
          a := Take(0, size, was);
          return;
        }
        assert forall k :: 0 < k < frees ==> Key(BySizeDown, was[0]) <= Key(BySizeDown, was[k]);
      } else {
        var i := 0;
        while i < frees
          invariant i <= frees
          invariant forall k :: 0 <= k < i ==> was[k].size < size
        {
          if free[i].size >= size {
            FirstFits(was, i, size, worst);
            a := Take(i, size, was);
            return;
          }
          i := i + 1;
        }
      }
      return 0;
    }

    /** Entry i goes, and what is left of it comes back in its own right. */
    method Take(i: nat, size: nat, ghost was: seq<FreeInfo>) returns (a: nat)
      requires Valid() && List() == was && i < |was| && was[i].size >= size
      modifies this, free
      ensures Valid() && losts == old(losts) && lostsize == old(lostsize)
      ensures a == was[i].addr && TakenFrom(was, i, size, List())
      ensures Tidy(was) ==> forall x :: ByteFree(List(), x) <==> ByteFree(was, x) && !(a <= x < a + size)
    {
      a := free[i].addr;
      var rest := FreeInfo(a + size, free[i].size - size);
      assert rest == FreeInfo(was[i].addr + size, was[i].size - size);
      RemoveAt(i);
      StillSorted(BySize(), was, i);
      if rest.size != 0 {
        PutBack(rest.addr, rest.size, Without(was, i));
        assert Absorbed(Without(was, i), rest, List());
      }
      if Tidy(was) {
        TakenBytes(was, i, size, List());
      }
    }

    method PutBack(addr: nat, size: nat, ghost was: seq<FreeInfo>)
      requires Valid() && List() == was && frees < MEMMAN_FREES
      modifies this, free
      ensures Valid() && losts == old(losts) && lostsize == old(lostsize)
      ensures Absorbed(was, FreeInfo(addr, size), List())
    {
      var status := Free(addr, size);
    }

    method Free(addr: nat, size: nat) returns (status: int)
      requires Valid()
      modifies this, free
      ensures Valid()
      ensures status == if old(frees) < MEMMAN_FREES then 0 else -1
      ensures status == 0 ==> Absorbed(old(List()), FreeInfo(addr, size), List())
                              && losts == old(losts) && lostsize == old(lostsize)
      ensures status == -1 ==> List() == old(List()) && losts == old(losts) + 1 && lostsize == old(lostsize) + size
    {
      var i := 0;
      while i < frees
        invariant i <= frees
      {
        if if worst then free[i].size < size else free[i].size > size {
          break;
        }
        i := i + 1;
      }
      if frees < MEMMAN_FREES {
        Absorb(i, FreeInfo(addr, size));
        return 0;
      }
      losts := losts + 1;
      lostsize := lostsize + size;
      return -1;
    }

    method Absorb(i: nat, e: FreeInfo)
      requires Valid() && i <= frees < MEMMAN_FREES
      modifies this`frees, free
      ensures Valid() && Absorbed(old(List()), e, List())
    {
      ghost var was := List();
      InsertAt(i, e);
      WithHolds(was, i, e);
      ToMerge();
    }

    method InsertAt(i: nat, e: FreeInfo)
      requires free.Length == MEMMAN_FREES && i <= frees < MEMMAN_FREES
      modifies this`frees, free
      ensures frees == old(frees) + 1 && List() == With(old(List()), i, e)
    {
      ghost var was := List();
      var j := frees;
      while j > i
        invariant i <= j <= frees == |was|
        invariant forall k :: 0 <= k < j ==> free[k] == was[k]
        invariant forall k :: j < k <= frees ==> free[k] == was[k - 1]
      {
        free[j] := free[j - 1];
        j := j - 1;
      }
      free[i] := e;
      frees := frees + 1;
    }

    /** Into address order, neighbours joined, back into order of size. */
    method ToMerge()
      requires free.Length == MEMMAN_FREES && 0 < frees <= MEMMAN_FREES
      modifies this`frees, free
      ensures Valid()
      ensures exists t :: Sorted(ByAddr, t) && multiset(t) == multiset(old(List())) && multiset(List()) == multiset(Merged(t, 1))
    {
      ghost var s0 := free[..];
      QSort(free, ByAddr, 0, frees - 1);
      PartSame(s0, free[..], 0, frees);
      assert free[..][0..frees] == List() && s0[0..frees] == old(List());
      ghost var t := List();
      assert free[0..frees - 1 + 1] == t;
      ghost var k := Merge();
      ghost var s1 := free[..];
      QSort(free, BySize(), 0, frees - 1);
      PartSame(s1, free[..], 0, frees);
      assert s1[0..frees] == Merged(t, 1);
      assert free[..][0..frees] == free[0..frees - 1 + 1] == List();
    }

    /** The joining pass; k is the first place where an entry begins at the end of the one before it, or the list's length. */
    method Merge() returns (ghost k: nat)
      requires free.Length == MEMMAN_FREES && 0 < frees <= MEMMAN_FREES
      modifies this`frees, free
      ensures 0 < frees <= old(frees) && List() == Merged(old(List()), 1)
      ensures 0 < k <= |old(List())|
      ensures forall i, j :: 0 <= i < j < k && j == i + 1 ==> old(List())[i].addr + old(List())[i].size != old(List())[j].addr
      ensures k == |old(List())| ==> List() == old(List())
      ensures k < |old(List())| ==> old(List())[k - 1].addr + old(List())[k - 1].size == old(List())[k].addr
      ensures k < |old(List())| && (forall i :: 0 <= i < |old(List())| ==> old(List())[i].size > 0) ==>
                && |List()| == |old(List())| - 1 && (forall i :: 0 <= i < k - 1 ==> List()[i] == old(List())[i])
                && List()[k - 1].addr == old(List())[k - 1].addr
                && List()[k - 1].size == old(List())[k - 1].size + old(List())[k].size
                && forall i :: k <= i < |List()| ==> List()[i] == old(List())[k + 1]
    {
      ghost var was := List();
      var m := 1;
      while m < frees
        invariant 0 < m && 0 < frees <= old(frees)
        invariant Merged(List(), m) == Merged(old(List()), 1)
        decreases frees - m
      {
        if free[m - 1].addr + free[m - 1].size == free[m].addr {
          JoinAt(m);
        }
        m := m + 1;
      }
      k := FirstPlace(was, 1);
      if k == |was| {
        MergedKeepsAll(was, 1);
      } else if forall i :: 0 <= i < |was| ==> was[i].size > 0 {
        MergedEntries(was, k);
      }
      assert forall i, j :: 0 <= i < j < k && j == i + 1 ==> was[i].addr + was[i].size != was[j].addr by {
        assert forall j :: 1 <= j < k ==> !Adjoins(was[j - 1], was[j]);
      }
    }

    method JoinAt(m: nat)
      requires free.Length == MEMMAN_FREES && 0 < m < frees <= MEMMAN_FREES
      modifies this`frees, free
      ensures frees == old(frees) - 1 && List() == Joined(old(List()), m)
    {
      ghost var was := List();
      free[m - 1] := FreeInfo(free[m - 1].addr, free[m - 1].size + free[m].size);
      var n := m;
      while n < frees - 1
        invariant m <= n <= frees - 1 && frees == |was|
        invariant forall k :: 0 <= k < m - 1 ==> free[k] == was[k]
        invariant free[m - 1] == FreeInfo(was[m - 1].addr, was[m - 1].size + was[m].size)
        invariant m + 1 < frees ==> free[m + 1] == was[m + 1] && forall k :: m <= k < n ==> free[k] == was[m + 1]
      {
        free[n] := free[m + 1];
        n := n + 1;
      }
      frees := frees - 1;
    }
  }
}
