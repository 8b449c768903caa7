/** The first-fit free list: entries in address order, merged with their neighbours when memory comes back. */
module FirstFit {
  import opened FreeLists

  /** Non-empty, in address order, and with a gap between any two: sorted, disjoint and fully merged. */
  ghost predicate Separate(list: seq<FreeInfo>) {
    && (forall i :: 0 <= i < |list| ==> list[i].size > 0)
    && (forall i, j :: 0 <= i < j < |list| ==> list[i].addr + list[i].size < list[j].addr)
  }

  predicate Holds(e: FreeInfo, x: int) { e.addr <= x < e.addr + e.size }

  /** Byte x is free. */
  ghost predicate IsFree(list: seq<FreeInfo>, x: int) {
    exists i :: 0 <= i < |list| && Holds(list[i], x)
  }

  function Sum(list: seq<FreeInfo>): nat {
    if list == [] then 0 else list[0].size + Sum(list[1..])
  }

  lemma {:induction false} SumConcat(a: seq<FreeInfo>, b: seq<FreeInfo>)
    ensures Sum(a + b) == Sum(a) + Sum(b)
  {
    if a == [] {
      assert a + b == b;
    } else {
      assert (a + b)[1..] == a[1..] + b;
      SumConcat(a[1..], b);
    }
  }

  class MemMan {
    var frees: nat
    var maxfrees: nat
    var lostsize: nat
    var losts: nat
    const free: array<FreeInfo>

    ghost predicate Valid()
      reads this, free
    {
      free.Length == MEMMAN_FREES && frees <= MEMMAN_FREES && frees <= maxfrees && Separate(List())
    }

    ghost function List(): seq<FreeInfo>
      reads this, free
      requires frees <= free.Length
    {
      free[..frees]
    }

    constructor ()
      ensures Valid() && List() == [] && lostsize == 0 && losts == 0 && fresh(free)
    {
      frees, maxfrees, lostsize, losts := 0, 0, 0, 0;
      free := new FreeInfo[MEMMAN_FREES](_ => FreeInfo(0, 0));
    }

    method Total() returns (t: nat)
      requires Valid()
      ensures t == Sum(List())
    {
      t := 0;
      for i := 0 to frees
        invariant t == Sum(List()[..i])
      {
        assert List()[..i + 1] == List()[..i] + [free[i]];
        SumConcat(List()[..i], [free[i]]);
        assert [free[i]][1..] == [];
        t := t + free[i].size;
      }
      assert List()[..frees] == List();
    }

    /** The loop that closes the gap at entry i. */
    method RemoveAt(i0: nat)
      requires free.Length == MEMMAN_FREES && i0 < frees <= MEMMAN_FREES
      modifies this`frees, free
      ensures frees == old(frees) - 1 && List() == old(List()[..i0] + List()[i0 + 1..])
    {
      ghost var was := List();
      frees := frees - 1;
      var i := i0;
      while i < frees
        invariant i0 <= i <= frees == |was| - 1
        invariant forall k :: i0 <= k < i ==> free[k] == was[k + 1]
        invariant forall k :: 0 <= k < i0 || i <= k <= frees ==> free[k] == was[k]
      {
        free[i] := free[i + 1];
        i := i + 1;
      }
    }

    /** The loop that opens a gap at entry i, and the new entry there. */
    method InsertAt(i: nat, e: FreeInfo)
      requires free.Length == MEMMAN_FREES && i <= frees < MEMMAN_FREES
      modifies this`frees, this`maxfrees, free
      ensures frees == old(frees) + 1 && List() == old(List()[..i]) + [e] + old(List()[i..])
      ensures maxfrees == if old(maxfrees) < frees then frees else old(maxfrees)
    {
      ghost var was := List();
      var j := frees;
      while j > i
        invariant i <= j <= frees == |was| && maxfrees == old(maxfrees)
        invariant forall k :: j < k <= frees ==> free[k] == was[k - 1]
        invariant forall k :: 0 <= k < j ==> free[k] == was[k]
      {
        free[j] := free[j - 1];
        j := j - 1;
      }
      frees := frees + 1;
      if maxfrees < frees {
        maxfrees := frees;
      }
      free[i] := e;
      IsInserted(was, i, e, List());
    }

    method TakeFrom(i: nat, size: nat) returns (a: nat)
      requires Valid() && i < frees && free[i].size >= size
      modifies this`frees, free
      ensures Valid() && a == old(free[i].addr)
      ensures Drawn(old(List()), a, size, List())
    {
      ghost var was := List();
      a := free[i].addr;
      free[i] := FreeInfo(a + size, free[i].size - size);
      assert List() == was[i := FreeInfo(a + size, was[i].size - size)];
      if free[i].size == 0 {
        RemoveAt(i);
        assert List() == was[..i] + was[i + 1..];
      }
      Taken(was, i, size, List());
    }

    /** Bytes come back; they are lost (-1) only when the table is full and nothing free adjoins them. */
    method Free(addr: nat, size: nat) returns (status: int)
      requires Valid() && size > 0 && forall x :: addr <= x < addr + size ==> !IsFree(List(), x)
      modifies this, free
      ensures Valid()
      ensures status == 0 || status == -1
      ensures status == -1 <==> old(frees) == MEMMAN_FREES && !IsFree(old(List()), addr - 1) && !IsFree(old(List()), addr + size)
      ensures status == -1 ==> List() == old(List()) && losts == old(losts) + 1 && lostsize == old(lostsize) + size
      ensures status == 0 ==> losts == old(losts) && lostsize == old(lostsize) && Returned(old(List()), addr, size, List())
      ensures maxfrees == if old(maxfrees) < frees then frees else old(maxfrees)
    {
      ghost var was := List();
      var i := 0;
      while i < frees
        invariant i <= frees && List() == was && losts == old(losts) && lostsize == old(lostsize) && frees == old(frees)
        invariant forall k :: 0 <= k < i ==> was[k].addr <= addr
      {
        if free[i].addr > addr {
          break;
        }
        i := i + 1;
      }
      Fits(was, i, addr, size);
      if i > 0 {
        if free[i - 1].addr + free[i - 1].size == addr {
          MergeBelow(i, addr, size);
          return 0;
        }
      }
      if i < frees {
        if addr + size == free[i].addr {
          MergeAbove(i, addr, size);
          return 0;
        }
      }
      if frees < MEMMAN_FREES {
        InsertAt(i, FreeInfo(addr, size));
        AddedAlone(was, i, addr, size, List());
        return 0;
      }
      losts := losts + 1;
      lostsize := lostsize + size;
      return -1;
    }

    /** The bytes adjoin the entry below them, and perhaps the one above as well. */
    method MergeBelow(i: nat, addr: nat, size: nat)
      requires Valid() && 0 < i <= frees && free[i - 1].addr + free[i - 1].size == addr
      requires Between(List(), i, addr, size)
      modifies this`frees, free
      ensures Valid() && Returned(old(List()), addr, size, List())
    {
      ghost var was := List();
      free[i - 1] := FreeInfo(free[i - 1].addr, free[i - 1].size + size);
      assert List() == was[i - 1 := free[i - 1]];
      if i < frees {
        if addr + size == free[i].addr {
          free[i - 1] := FreeInfo(free[i - 1].addr, free[i - 1].size + free[i].size);
          assert List() == was[i - 1 := free[i - 1]];
          Closed(was, i, free[i - 1]);
          RemoveAt(i);
          JoinedBoth(was, i, addr, size, List());
          return;
        }
      }
      assert List() == was[..i - 1] + [free[i - 1]] + was[i..];
      JoinedBelow(was, i, addr, size, List());
    }

    method MergeAbove(i: nat, addr: nat, size: nat)
      requires Valid() && i < frees && addr + size == free[i].addr
      requires Between(List(), i, addr, size) && (i > 0 ==> free[i - 1].addr + free[i - 1].size < addr)
      modifies free
      ensures Valid() && Returned(old(List()), addr, size, List())
    {
      ghost var was := List();
      free[i] := FreeInfo(addr, free[i].size + size);
      assert List() == was[..i] + [free[i]] + was[i + 1..];
      JoinedAbove(was, i, addr, size, List());
    }

    /** The lowest entry that is large enough gives up its first bytes; 0 if there is none. */
    method Alloc(size: nat) returns (a: nat)
      requires Valid()
      modifies this`frees, free
      ensures Valid()
      ensures var was := old(List()); var i := FirstFitting(was, size);
              if i < |was| then
                a == was[i].addr && Drawn(was, a, size, List())
              else a == 0 && List() == was
    {
      ghost var was := List();
      var i := 0;
      while i < frees
        invariant i <= frees && List() == was
        invariant forall k :: 0 <= k < i ==> was[k].size < size
      {
        if free[i].size >= size {
          FirstFittingIs(was, size, i);
          a := TakeFrom(i, size);
          return;
        }
        i := i + 1;
      }
      FirstFittingIs(was, size, i);
      return 0;
    }
  }

  /** The lowest entry that is large enough, or the length of the list if there is none. */
  function FirstFitting(list: seq<FreeInfo>, size: nat): (i: nat)
    ensures i <= |list|
    ensures i < |list| ==> list[i].size >= size
    ensures forall k :: 0 <= k < i ==> list[k].size < size
  {
    if list == [] || list[0].size >= size then 0
    else
      var i := FirstFitting(list[1..], size);
      assert forall k :: 1 <= k < i + 1 ==> list[k] == list[1..][k - 1];
      i + 1
  }

  lemma FirstFittingIs(list: seq<FreeInfo>, size: nat, i: nat)
    requires i <= |list| && (i < |list| ==> list[i].size >= size) && forall k :: 0 <= k < i ==> list[k].size < size
    ensures FirstFitting(list, size) == i
  {
  }

  lemma IsInserted(was: seq<FreeInfo>, i: nat, e: FreeInfo, now: seq<FreeInfo>)
    requires i <= |was| && |now| == |was| + 1 && now[i] == e
    requires forall k :: 0 <= k < i ==> now[k] == was[k]
    requires forall k :: i < k < |now| ==> now[k] == was[k - 1]
    ensures now == was[..i] + [e] + was[i..]
  {
  }

  lemma FreeConcat(a: seq<FreeInfo>, b: seq<FreeInfo>, x: int)
    ensures IsFree(a + b, x) <==> IsFree(a, x) || IsFree(b, x)
  {
    if IsFree(a, x) {
      var i :| 0 <= i < |a| && Holds(a[i], x);
      assert Holds((a + b)[i], x);
    }
    if IsFree(b, x) {
      var i :| 0 <= i < |b| && Holds(b[i], x);
      assert Holds((a + b)[|a| + i], x);
    }
    if IsFree(a + b, x) {
      var i :| 0 <= i < |a + b| && Holds((a + b)[i], x);
      if i < |a| { assert Holds(a[i], x); } else { assert Holds(b[i - |a|], x); }
    }
  }

  lemma FreeOne(e: FreeInfo, x: int)
    ensures IsFree([e], x) <==> Holds(e, x)
  {
    if Holds(e, x) { assert Holds([e][0], x); }
  }

  /** A list seen as what comes before an entry, the entry, and what comes after. */
  lemma FreeAround(a: seq<FreeInfo>, e: FreeInfo, b: seq<FreeInfo>, x: int)
    ensures IsFree(a + [e] + b, x) <==> IsFree(a, x) || Holds(e, x) || IsFree(b, x)
  {
    FreeConcat(a + [e], b, x);
    FreeConcat(a, [e], x);
    FreeOne(e, x);
  }

  /** Bytes of one entry are in no other. */
  lemma FreeOnce(list: seq<FreeInfo>, i: nat, x: int)
    requires Separate(list) && i < |list| && list[i].addr <= x <= list[i].addr + list[i].size
    ensures !IsFree(list[..i], x) && !IsFree(list[i + 1..], x)
  {
  }

  lemma SumAround(a: seq<FreeInfo>, e: FreeInfo, b: seq<FreeInfo>)
    ensures Sum(a + [e] + b) == Sum(a) + e.size + Sum(b) && Sum(a + b) == Sum(a) + Sum(b)
  {
    SumConcat(a + [e], b);
    SumConcat(a, [e]);
    SumConcat(a, b);
    assert [e][1..] == [];
  }

  /** The bytes from addr on, all of them free before, and no others, are free no longer. */
  ghost predicate Drawn(was: seq<FreeInfo>, addr: nat, size: nat, now: seq<FreeInfo>) {
    && (forall x :: addr <= x < addr + size ==> IsFree(was, x))
    && (forall x :: IsFree(now, x) <==> IsFree(was, x) && !(addr <= x < addr + size))
    && Sum(now) == Sum(was) - size
  }

  lemma SeparateTake(a: seq<FreeInfo>, e: FreeInfo, b: seq<FreeInfo>, size: nat)
    requires Separate(a + [e] + b) && e.size >= size
    ensures Separate(a + b)
    ensures e.size > size ==> Separate(a + [FreeInfo(e.addr + size, e.size - size)] + b)
  {
    var s, t := a + [e] + b, a + b;
    assert forall k :: 0 <= k < |t| ==> t[k] == s[if k < |a| then k else k + 1];
    if e.size > size {
      var u := a + [FreeInfo(e.addr + size, e.size - size)] + b;
      assert forall k :: 0 <= k < |u| && k != |a| ==> u[k] == s[k];
    }
  }

  lemma TakenFree(a: seq<FreeInfo>, e: FreeInfo, b: seq<FreeInfo>, size: nat, now: seq<FreeInfo>, x: int)
    requires Separate(a + [e] + b) && e.size >= size
    requires now == if e.size == size then a + b else a + [FreeInfo(e.addr + size, e.size - size)] + b
    ensures e.addr <= x < e.addr + size ==> IsFree(a + [e] + b, x)
    ensures IsFree(now, x) <==> IsFree(a + [e] + b, x) && !(e.addr <= x < e.addr + size)
  {
    FreeAround(a, e, b, x);
    if Holds(e, x) {
      FreeOnce(a + [e] + b, |a|, x);
      assert (a + [e] + b)[..|a|] == a && (a + [e] + b)[|a| + 1..] == b;
    }
    if e.size == size {
      FreeConcat(a, b, x);
    } else {
      FreeAround(a, FreeInfo(e.addr + size, e.size - size), b, x);
    }
  }

  lemma TakenSum(a: seq<FreeInfo>, e: FreeInfo, b: seq<FreeInfo>, size: nat, now: seq<FreeInfo>)
    requires e.size >= size
    requires now == if e.size == size then a + b else a + [FreeInfo(e.addr + size, e.size - size)] + b
    ensures Sum(now) == Sum(a + [e] + b) - size
  {
    SumAround(a, e, b);
    if e.size == size {
      SumConcat(a, b);
    } else {
      SumAround(a, FreeInfo(e.addr + size, e.size - size), b);
    }
  }

  lemma TakenFreeAll(a: seq<FreeInfo>, e: FreeInfo, b: seq<FreeInfo>, size: nat, now: seq<FreeInfo>)
    requires Separate(a + [e] + b) && e.size >= size
    requires now == if e.size == size then a + b else a + [FreeInfo(e.addr + size, e.size - size)] + b
    ensures forall x :: e.addr <= x < e.addr + size ==> IsFree(a + [e] + b, x)
    ensures forall x :: IsFree(now, x) <==> IsFree(a + [e] + b, x) && !(e.addr <= x < e.addr + size)
  {
    forall x: int
      ensures e.addr <= x < e.addr + size ==> IsFree(a + [e] + b, x)
      ensures IsFree(now, x) <==> IsFree(a + [e] + b, x) && !(e.addr <= x < e.addr + size)
    {
      TakenFree(a, e, b, size, now, x);
    }
  }

  lemma Taken(was: seq<FreeInfo>, i: nat, size: nat, now: seq<FreeInfo>)
    requires Separate(was) && i < |was| && was[i].size >= size
    requires now == if was[i].size == size then was[..i] + was[i + 1..]
                    else was[i := FreeInfo(was[i].addr + size, was[i].size - size)]
    ensures Separate(now) && Drawn(was, was[i].addr, size, now)
  {
    var a, e, b := was[..i], was[i], was[i + 1..];
    var e' := FreeInfo(e.addr + size, e.size - size);
    Around(was, i, e');
    TakenParts(a, e, b, size, now);
  }

  lemma Around(was: seq<FreeInfo>, i: nat, e: FreeInfo)
    requires i < |was|
    ensures was == was[..i] + [was[i]] + was[i + 1..] && was[i := e] == was[..i] + [e] + was[i + 1..]
  {
  }

  lemma Closed(was: seq<FreeInfo>, i: nat, e: FreeInfo)
    requires 0 < i < |was|
    ensures was[i - 1 := e][..i] + was[i - 1 := e][i + 1..] == was[..i - 1] + [e] + was[i + 1..]
  {
  }

  lemma Adjacent(was: seq<FreeInfo>, i: nat)
    requires 0 < i < |was|
    ensures was[i - 1..i + 1] == [was[i - 1], was[i]]
  {
  }

  lemma TakenParts(a: seq<FreeInfo>, e: FreeInfo, b: seq<FreeInfo>, size: nat, now: seq<FreeInfo>)
    requires Separate(a + [e] + b) && e.size >= size
    requires now == if e.size == size then a + b else a + [FreeInfo(e.addr + size, e.size - size)] + b
    ensures Separate(now) && Drawn(a + [e] + b, e.addr, size, now)
  {
    SeparateTake(a, e, b, size);
    TakenSum(a, e, b, size, now);
    TakenFreeAll(a, e, b, size, now);
  }

  /** Exactly the bytes from addr on have become free. */
  ghost predicate Returned(was: seq<FreeInfo>, addr: nat, size: nat, now: seq<FreeInfo>) {
    && (forall x :: IsFree(now, x) <==> IsFree(was, x) || addr <= x < addr + size)
    && Sum(now) == Sum(was) + size
  }

  /** Entry i is the first one above addr. */
  ghost predicate Above(was: seq<FreeInfo>, i: nat, addr: nat) {
    && i <= |was| && (forall k :: 0 <= k < i ==> was[k].addr <= addr)
    && (i < |was| ==> was[i].addr > addr)
  }

  /** What comes back lies between entries i - 1 and i. */
  ghost predicate Between(was: seq<FreeInfo>, i: nat, addr: nat, size: nat) {
    && size > 0 && i <= |was|
    && (i > 0 ==> was[i - 1].addr + was[i - 1].size <= addr)
    && (i < |was| ==> addr + size <= was[i].addr)
  }

  /** It adjoins free memory only if it adjoins one of them. */
  lemma Fits(was: seq<FreeInfo>, i: nat, addr: nat, size: nat)
    requires Separate(was) && Above(was, i, addr) && size > 0
    requires forall x :: addr <= x < addr + size ==> !IsFree(was, x)
    ensures Between(was, i, addr, size)
    ensures IsFree(was, addr - 1) <==> i > 0 && was[i - 1].addr + was[i - 1].size == addr
    ensures IsFree(was, addr + size) <==> i < |was| && was[i].addr == addr + size
  {
    if i > 0 {
      HeldIsFree(was, i - 1, addr);
      HeldIsFree(was, i - 1, addr - 1);
    }
    if i < |was| {
      HeldIsFree(was, i, was[i].addr);
      HeldIsFree(was, i, addr + size);
    }
  }

  lemma HeldIsFree(was: seq<FreeInfo>, i: nat, x: int)
    requires i < |was|
    ensures Holds(was[i], x) ==> IsFree(was, x)
  {
  }

  /** Entries lo .. hi-1 together with the returned bytes become one entry e. */
  lemma Spliced(was: seq<FreeInfo>, lo: nat, hi: nat, e: FreeInfo, addr: nat, size: nat)
    requires Separate(was) && lo <= hi <= |was| && e.size == Sum(was[lo..hi]) + size > 0
    requires lo > 0 ==> was[lo - 1].addr + was[lo - 1].size < e.addr
    requires hi < |was| ==> e.addr + e.size < was[hi].addr
    requires forall x :: Holds(e, x) <==> IsFree(was[lo..hi], x) || addr <= x < addr + size
    ensures Separate(was[..lo] + [e] + was[hi..]) && Returned(was, addr, size, was[..lo] + [e] + was[hi..])
  {
    var a, m, b := was[..lo], was[lo..hi], was[hi..];
    var now := a + [e] + b;
    SeparateSplice(was, lo, hi, e);
    assert was == a + m + b;
    SumConcat(a + m, b);
    SumConcat(a, m);
    SumAround(a, e, b);
    forall x: int ensures IsFree(now, x) <==> IsFree(was, x) || addr <= x < addr + size {
      FreeAround(a, e, b, x);
      FreeConcat(a + m, b, x);
      FreeConcat(a, m, x);
    }
  }

  lemma SeparateSplice(was: seq<FreeInfo>, lo: nat, hi: nat, e: FreeInfo)
    requires Separate(was) && lo <= hi <= |was| && e.size > 0
    requires lo > 0 ==> was[lo - 1].addr + was[lo - 1].size < e.addr
    requires hi < |was| ==> e.addr + e.size < was[hi].addr
    ensures Separate(was[..lo] + [e] + was[hi..])
  {
    var now := was[..lo] + [e] + was[hi..];
    forall i, j | 0 <= i < j < |now| ensures now[i].addr + now[i].size < now[j].addr {
      if i < lo { assert i == lo - 1 || was[i].addr + was[i].size < was[lo - 1].addr; }
      if j > lo { assert now[j] == was[hi + (j - lo - 1)]; assert j == lo + 1 || was[hi].addr < now[j].addr; }
    }
  }

  lemma AddedAlone(was: seq<FreeInfo>, i: nat, addr: nat, size: nat, now: seq<FreeInfo>)
    requires Separate(was) && Between(was, i, addr, size)
    requires i > 0 ==> was[i - 1].addr + was[i - 1].size != addr
    requires i < |was| ==> was[i].addr != addr + size
    requires now == was[..i] + [FreeInfo(addr, size)] + was[i..]
    ensures Separate(now) && Returned(was, addr, size, now)
  {
    assert was[i..i] == [];
    Spliced(was, i, i, FreeInfo(addr, size), addr, size);
  }

  lemma JoinedBelow(was: seq<FreeInfo>, i: nat, addr: nat, size: nat, now: seq<FreeInfo>)
    requires Separate(was) && Between(was, i, addr, size) && i > 0
    requires was[i - 1].addr + was[i - 1].size == addr
    requires i < |was| ==> was[i].addr != addr + size
    requires now == was[..i - 1] + [FreeInfo(was[i - 1].addr, was[i - 1].size + size)] + was[i..]
    ensures Separate(now) && Returned(was, addr, size, now)
  {
    var e := FreeInfo(was[i - 1].addr, was[i - 1].size + size);
    assert was[i - 1..i] == [was[i - 1]] && [was[i - 1]][1..] == [];
    forall x: int ensures Holds(e, x) <==> IsFree(was[i - 1..i], x) || addr <= x < addr + size {
      FreeOne(was[i - 1], x);
    }
    Spliced(was, i - 1, i, e, addr, size);
  }

  lemma JoinedAbove(was: seq<FreeInfo>, i: nat, addr: nat, size: nat, now: seq<FreeInfo>)
    requires Separate(was) && Between(was, i, addr, size) && i < |was|
    requires i > 0 ==> was[i - 1].addr + was[i - 1].size != addr
    requires was[i].addr == addr + size
    requires now == was[..i] + [FreeInfo(addr, was[i].size + size)] + was[i + 1..]
    ensures Separate(now) && Returned(was, addr, size, now)
  {
    var e := FreeInfo(addr, was[i].size + size);
    assert was[i..i + 1] == [was[i]] && [was[i]][1..] == [];
    forall x: int ensures Holds(e, x) <==> IsFree(was[i..i + 1], x) || addr <= x < addr + size {
      FreeOne(was[i], x);
    }
    Spliced(was, i, i + 1, e, addr, size);
  }

  lemma BothFilled(l: FreeInfo, r: FreeInfo, addr: nat, size: nat)
    requires l.addr + l.size == addr && r.addr == addr + size
    ensures l.size + size + r.size == Sum([l, r]) + size
    ensures forall x :: Holds(FreeInfo(l.addr, l.size + size + r.size), x) <==> IsFree([l, r], x) || addr <= x < addr + size
  {
    SumConcat([l], [r]);
    assert [l] + [r] == [l, r];
    assert [l][1..] == [] && [r][1..] == [];
    forall x: int ensures Holds(FreeInfo(l.addr, l.size + size + r.size), x) <==> IsFree([l, r], x) || addr <= x < addr + size {
      FreePair(l, r, x);
      assert [l, r] == [l] + [r];
    }
  }

  lemma SplicedTo(was: seq<FreeInfo>, lo: nat, hi: nat, e: FreeInfo, addr: nat, size: nat, now: seq<FreeInfo>)
    requires Separate(was) && lo <= hi <= |was| && e.size == Sum(was[lo..hi]) + size > 0
    requires lo > 0 ==> was[lo - 1].addr + was[lo - 1].size < e.addr
    requires hi < |was| ==> e.addr + e.size < was[hi].addr
    requires forall x :: Holds(e, x) <==> IsFree(was[lo..hi], x) || addr <= x < addr + size
    requires now == was[..lo] + [e] + was[hi..]
    ensures Separate(now) && Returned(was, addr, size, now)
  {
    Spliced(was, lo, hi, e, addr, size);
  }

  lemma JoinedBoth(was: seq<FreeInfo>, i: nat, addr: nat, size: nat, now: seq<FreeInfo>)
    requires Separate(was) && Between(was, i, addr, size) && 0 < i < |was|
    requires was[i - 1].addr + was[i - 1].size == addr && was[i].addr == addr + size
    requires now == was[..i - 1] + [FreeInfo(was[i - 1].addr, was[i - 1].size + size + was[i].size)] + was[i + 1..]
    ensures Separate(now) && Returned(was, addr, size, now)
  {
    var l, r := was[i - 1], was[i];
    var e := FreeInfo(l.addr, l.size + size + r.size);
    BothFilled(l, r, addr, size);
    Adjacent(was, i);
    SplicedTo(was, i - 1, i + 1, e, addr, size, now);
  }

  lemma FreePair(a: FreeInfo, b: FreeInfo, x: int)
    ensures IsFree([a] + [b], x) <==> Holds(a, x) || Holds(b, x)
  {
    FreeConcat([a], [b], x);
    FreeOne(a, x);
    FreeOne(b, x);
  }

  // ---- one list for each set of free bytes ----

  /** The end of an entry is not free, and nothing below the first entry is. */
  lemma Edges(list: seq<FreeInfo>)
    requires Separate(list) && list != []
    ensures forall x :: list[0].addr <= x < list[0].addr + list[0].size ==> IsFree(list, x)
    ensures !IsFree(list, list[0].addr + list[0].size)
    ensures forall x :: x < list[0].addr ==> !IsFree(list, x)
    ensures Separate(list[1..])
    ensures forall x :: IsFree(list[1..], x) <==> IsFree(list, x) && x >= list[0].addr + list[0].size
  {
    forall x: int ensures IsFree(list[1..], x) <==> IsFree(list, x) && x >= list[0].addr + list[0].size {
      assert list == [list[0]] + list[1..];
      FreeConcat([list[0]], list[1..], x);
      FreeOne(list[0], x);
    }
    forall x: int | Holds(list[0], x) ensures IsFree(list, x) {
      HeldIsFree(list, 0, x);
    }
  }

  lemma {:induction false} ListIsDetermined(a: seq<FreeInfo>, b: seq<FreeInfo>)
    requires Separate(a) && Separate(b) && forall x :: IsFree(a, x) <==> IsFree(b, x)
    ensures a == b
    decreases |a|
  {
    if a == [] {
      if b != [] { HeldIsFree(b, 0, b[0].addr); }
    } else {
      HeldIsFree(a, 0, a[0].addr);
      assert b != [];
      HeldIsFree(b, 0, b[0].addr);
      Edges(a);
      Edges(b);
      assert a[0].addr == b[0].addr;
      assert IsFree(b, a[0].addr);
      var ea, eb := a[0].addr + a[0].size, b[0].addr + b[0].size;
      assert IsFree(a, ea) == IsFree(b, ea) && IsFree(a, eb) == IsFree(b, eb);
      ListIsDetermined(a[1..], b[1..]);
      assert a == [a[0]] + a[1..] && b == [b[0]] + b[1..];
    }
  }

  /** Memory given out and at once given back leaves the very same list. */
  method AllocThenFree(man: MemMan, size: nat) returns (status: int)
    requires man.Valid() && 0 < size && FirstFitting(man.List(), size) < |man.List()|
    modifies man, man.free
    ensures man.Valid() && status == 0 && man.List() == old(man.List())
  {
    ghost var was := man.List();
    var a := man.Alloc(size);
    ghost var mid, frees := man.List(), man.frees;
    status := man.Free(a, size);
    if status == -1 {
      StillRoom(was, FirstFitting(was, size), size, mid);
      assert false;
    }
    ListIsDetermined(was, man.List());
  }

  /** After an allocation there is an entry fewer, or the rest of the entry adjoins what was taken. */
  lemma StillRoom(was: seq<FreeInfo>, i: nat, size: nat, mid: seq<FreeInfo>)
    requires Separate(was) && Separate(mid) && i < |was| <= MEMMAN_FREES && was[i].size >= size > 0
    requires forall x :: IsFree(mid, x) <==> IsFree(was, x) && !(was[i].addr <= x < was[i].addr + size)
    ensures |mid| < MEMMAN_FREES || IsFree(mid, was[i].addr + size)
  {
    if was[i].size > size {
      HeldIsFree(was, i, was[i].addr + size);
    } else {
      var now := was[..i] + was[i + 1..];
      Taken(was, i, size, now);
      ListIsDetermined(mid, now);
    }
  }
}
