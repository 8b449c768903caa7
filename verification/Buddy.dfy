/** The buddy allocator: a heap-indexed array of words, changed in place. */
module BuddyAllocator {
  import opened Basics
  import opened Bits
  import opened BuddyTree

  /** The request, rounded up to a power of two. */
  function Rounded(size: int): (r: nat)
    requires size < 0x8000_0000
    ensures IsPow2(r) && r >= size && (r == 1 || r / 2 < size)
  {
    if size <= 0 then 1
    else if !Check(size) then FixSize(size)
    else size
  }

  /** The live nodes left when the block holding the given unit, if any, is released. */
  ghost function Released(n: nat, live: set<nat>, unit: int): set<nat> {
    set b | b in live && !Covers(n, b, unit)
  }

  class Buddy {
    const size: nat
    const longest: array<nat>
    ghost var live: set<nat>

    ghost predicate Valid()
      reads this, longest
    {
      AllRight(size, live, longest[..]) && Placed(size, live)
    }

    constructor (units: nat)
      requires IsPow2(units)
      ensures Valid() && size == units && live == {} && fresh(longest)
    {
      size := units;
      longest := new nat[2 * units];
      live := {};
      new;
      Fill(units);
      assert longest[..2 * units - 1] == Fresh(units);
      EmptyIsFresh(units, longest[..]);
    }

    /** Every node free: each word is the length of its node. */
    method Fill(units: nat)
      requires units > 0 && longest.Length == 2 * units
      modifies longest
      ensures forall j {:trigger longest[j]} :: 0 <= j < 2 * units - 1 ==> longest[j] == Len(units, j)
    {
      var nodeSize := 2 * units;
      for i := 0 to 2 * units - 1
        invariant nodeSize == if i > 0 then Len(units, i - 1) else 2 * units
        invariant forall j {:trigger longest[j]} :: 0 <= j < i ==> longest[j] == Len(units, j)
      {
        NextSize(units, i, nodeSize);
        if Check(i + 1) {
          nodeSize := nodeSize / 2;
        }
        longest[i] := nodeSize;
      }
    }

    /** The descent of an allocation: the leftmost node of the wanted length that is free. */
    method Search(want: nat) returns (index: nat, nodeSize: nat)
      requires Valid() && IsPow2(want) && longest[0] >= want
      ensures index < 2 * size - 1 && nodeSize == want == Len(size, index)
      ensures Clear(live, index) && forall b :: b in live ==> !Under(b, index)
      ensures forall off: nat :: FreeAt(size, live, off, want) ==> off >= Lo(size, index)
    {
      CanonBound(size, live, 0);
      index, nodeSize := 0, size;
      while nodeSize != want
        invariant index < 2 * size - 1 && nodeSize == Len(size, index) && nodeSize >= want
        invariant longest[index] >= want
        invariant forall b :: b in live ==> !Under(b, index)
        invariant forall off: nat :: FreeAt(size, live, off, want) ==> off >= Lo(size, index)
        decreases nodeSize
      {
        DescentStep(size, live, index, want);
        if longest[Ls(index)] >= want {
          index := Ls(index);
        } else if longest[Rs(index)] >= want {
          index := Rs(index);
        } else {
          assert false;
        }
        nodeSize := nodeSize / 2;
      }
      CanonBound(size, live, index);
    }

    method Alloc(request: int) returns (r: int)
      requires Valid() && request < 0x8000_0000
      modifies this, longest
      ensures Valid()
      ensures if exists off: nat :: FreeAt(size, old(live), off, Rounded(request)) then
                && r >= 0 && FreeAt(size, old(live), r, Rounded(request))
                && (forall off: nat :: FreeAt(size, old(live), off, Rounded(request)) ==> r <= off)
                && live == old(live) + {NodeAt(size, r, Rounded(request))}
              else r == -1 && live == old(live)
    {
      var want := Rounded(request);
      if longest[0] < want {
        assert !exists off: nat :: FreeAt(size, live, off, want) by {
          if exists off: nat :: FreeAt(size, live, off, want) { FitsArena(size, live, want); }
        }
        return -1;
      }
      var index, nodeSize := Search(want);
      Take(size, live, longest[..], index);
      FreeNode(size, live, index);
      Geometry(size, index);
      NodeAtNode(size, index);
      r := (index + 1) * nodeSize - size;
      longest[index] := 0;
      live := live + {index};
      RepairAfterTake(index);
    }

    /** Byte-sized requests in 4096-byte units; a failure is the unit result -1 shifted, not -1 or 0. */
    method Alloc4k(request: int) returns (addr: int)
      requires Valid() && request <= 0x7fff_f000
      modifies this, longest
      ensures Valid()
      ensures var want := Rounded((request + 0xfff) / 4096);
              if exists off: nat :: FreeAt(size, old(live), off, want) then
                && addr >= 0 && addr % 4096 == 0 && FreeAt(size, old(live), addr / 4096, want)
                && (forall off: nat :: FreeAt(size, old(live), off, want) ==> addr <= 4096 * off)
                && live == old(live) + {NodeAt(size, addr / 4096, want)}
              else addr == -4096 && live == old(live)
    {
      ghost var was, want := live, Rounded((request + 0xfff) / 4096);
      var unit := Alloc((request + 0xfff) / 4096);
      addr := unit * 4096;
      assert addr / 4096 == unit && addr % 4096 == 0;
      assert (exists off: nat :: FreeAt(size, was, off, want)) ==> FreeAt(size, was, addr / 4096, want);
    }

    /** The walk up of an allocation: each word above node i becomes the larger of its children's. */
    method RepairAfterTake(i: nat)
      requires RightBut(size, live, longest[..], i) && Placed(size, live)
      requires forall p :: Under(p, i) && p != i ==> p !in live && !Clear(live, p)
      modifies longest
      ensures Valid()
    {
      var index := i;
      while index > 0
        invariant Under(index, i) && RightBut(size, live, longest[..], index)
      {
        ghost var words := longest[..];
        var up := Fa(index);
        Father(index, i);
        Siblings(size, live, words, index);
        longest[up] := Max(longest[Ls(up)], longest[Rs(up)]);
        StepUp(size, live, words, index, longest[up]);
        assert longest[..] == words[up := longest[up]];
        index := up;
      }
      AtRoot(size, live, longest[..]);
    }

    method Free(addr: int)
      requires Valid()
      modifies this, longest
      ensures Valid()
      ensures live == Released(size, old(live), addr / 4096)
      ensures forall b :: b in live <==> b in old(live) && !(Lo(size, b) <= addr / 4096 < Lo(size, b) + Len(size, b))
      ensures live == old(live) ==> longest[..] == old(longest[..])
    {
      hide RightBut, Lo, Len;
      var offset := addr / 4096;
      if !(offset >= 0 && offset < size) {
        NoneOutside(size, live, offset);
        return;
      }
      var nodeSize: nat, index: nat := 1, offset + size - 1;
      UnitLeaf(size, offset);
      while longest[index] != 0
        invariant Valid() && live == old(live) && longest[..] == old(longest[..])
        invariant index < 2 * size - 1 && Under(index, offset + size - 1) && nodeSize == Len(size, index)
        invariant forall b :: b in live && Under(b, offset + size - 1) ==> Under(b, index)
        decreases index
      {
        assert index !in live;
        if index == 0 {
          NoneAbove(size, live, offset);
          return;
        }
        Father(index, offset + size - 1);
        Children(size, Fa(index));
        nodeSize := nodeSize * 2;
        index := Fa(index);
      }
      FirstZero(size, live, offset, index);
      OneReleased(size, live, offset, index);
      Drop(size, live, longest[..], index);
      longest[index] := nodeSize;
      live := live - {index};
      RepairAfterDrop(index, nodeSize);
    }

    /** The walk up of a release: two full halves merge into a full node. */
    method RepairAfterDrop(i: nat, length: nat)
      requires RightBut(size, live, longest[..], i) && Placed(size, live) && length == Len(size, i)
      requires forall p :: Under(p, i) && p != i ==> p !in live
      modifies longest
      ensures Valid()
    {
      var index, nodeSize := i, length;
      while index > 0
        invariant Under(index, i) && RightBut(size, live, longest[..], index) && nodeSize == Len(size, index)
      {
        ghost var words := longest[..];
        var up := Fa(index);
        Father(index, i);
        Siblings(size, live, words, index);
        Children(size, up);
        Merge(size, live, up);
        nodeSize := nodeSize * 2;
        var left, right := longest[Ls(up)], longest[Rs(up)];
        if left + right == nodeSize {
          longest[up] := nodeSize;
        } else {
          longest[up] := Max(left, right);
        }
        StepUp(size, live, words, index, longest[up]);
        assert longest[..] == words[up := longest[up]];
        index := up;
      }
      AtRoot(size, live, longest[..]);
    }

    method Total() returns (bytes: int)
      requires Valid()
      ensures bytes == (size - |Used(size, live, 2 * size - 1)|) * 4096
    {
      var nodeSize, total := 2 * size, 0;
      for i := 0 to 2 * size - 1
        invariant nodeSize == if i > 0 then Len(size, i - 1) else 2 * size
        invariant total == |Used(size, live, i)|
      {
        NextSize(size, i, nodeSize);
        LiveByWords(size, live, i);
        UsedNext(size, live, i);
        if Check(i + 1) {
          nodeSize := nodeSize / 2;
        }
        if longest[i] == 0 {
          if i + 1 >= size {
            UnitLeaf(size, i + 1 - size);
            total := total + 1;
          } else if longest[Ls(i)] != 0 && longest[Rs(i)] != 0 {
            total := total + nodeSize;
          }
        }
      }
      bytes := (size - total) * 4096;
    }
  }

  lemma NoneOutside(n: nat, live: set<nat>, unit: int)
    requires IsPow2(n) && Placed(n, live) && !(0 <= unit < n)
    ensures Released(n, live, unit) == live
  {
    forall b | b in live ensures !Covers(n, b, unit) {
      Geometry(n, b);
    }
  }

  lemma NoneAbove(n: nat, live: set<nat>, unit: nat)
    requires IsPow2(n) && Placed(n, live) && unit < n && 0 !in live
    requires forall b :: b in live && Under(b, unit + n - 1) ==> Under(b, 0)
    ensures Released(n, live, unit) == live
  {
    forall b | b in live ensures !Covers(n, b, unit) {
      CoversIsAbove(n, b, unit);
      if Under(b, 0) { UnderUp(b, 0); }
    }
  }

  lemma OneReleased(n: nat, live: set<nat>, unit: nat, i: nat)
    requires IsPow2(n) && Placed(n, live) && unit < n && i in live && Under(i, unit + n - 1)
    ensures Released(n, live, unit) == live - {i}
  {
    CoversIsAbove(n, i, unit);
    forall b | b in live && b != i ensures !Covers(n, b, unit) {
      Apart(n, b, i);
    }
  }

  /** Live blocks are inside the arena, aligned to their own length, and share no unit. */
  lemma LiveBlocksDisjoint(n: nat, live: set<nat>, b: nat, c: nat)
    requires IsPow2(n) && Placed(n, live) && b in live && c in live
    ensures IsPow2(Len(n, b)) && Lo(n, b) % Len(n, b) == 0 && Lo(n, b) + Len(n, b) <= n
    ensures b != c ==> forall unit :: !(Covers(n, b, unit) && Covers(n, c, unit))
  {
    Geometry(n, b);
    LoMultiple(n, b, Len(n, b));
    if b != c { Apart(n, b, c); }
  }

  /** On the object itself: a block given out and at once given back leaves every word as it was. */
  method AllocThenFree(buddy: Buddy, request: int) returns (addr: int)
    requires buddy.Valid() && request <= 0x7fff_f000
    modifies buddy, buddy.longest
    ensures buddy.Valid() && buddy.live == old(buddy.live)
    ensures buddy.longest[..2 * buddy.size - 1] == old(buddy.longest[..2 * buddy.size - 1])
  {
    ghost var want := Rounded((request + 0xfff) / 4096);
    ghost var live, words := buddy.live, buddy.longest[..];
    addr := buddy.Alloc4k(request);
    if addr >= 0 {
      FreeUndoesAlloc(buddy.size, live, addr / 4096, want, addr / 4096);
      buddy.Free(addr);
    }
    WordsDetermined(buddy.size, live, words, buddy.longest[..]);
    assert words[..2 * buddy.size - 1] == old(buddy.longest[..2 * buddy.size - 1]);
  }

  // ---- what runs of Alloc and Free give, in terms of the live nodes ----

  /** The words are a function of the live nodes: equal live nodes, equal words. */
  lemma WordsDetermined(n: nat, live: set<nat>, words: seq<nat>, words': seq<nat>)
    requires AllRight(n, live, words) && AllRight(n, live, words')
    ensures words[..2 * n - 1] == words'[..2 * n - 1]
  {
    forall j | 0 <= j < 2 * n - 1 ensures words[j] == words'[j] {
      assert words[j] == Canon(n, live, j) == words'[j];
    }
  }

  /** Allocating a block and releasing any unit of it undoes the allocation. */
  lemma FreeUndoesAlloc(n: nat, live: set<nat>, off: nat, len: nat, unit: nat)
    requires IsPow2(n) && Placed(n, live) && IsPow2(len)
    requires FreeAt(n, live, off, len) && off <= unit < off + len
    ensures NodeAt(n, off, len) >= 0 && NodeAt(n, off, len) !in live
    ensures Released(n, live + {NodeAt(n, off, len)}, unit) == live
  {
    var j := FreeRunIsNode(n, live, off, len);
    FreeNode(n, live, j);
    assert Under(j, j);
    forall b | b in live ensures !Covers(n, b, unit) {
      Apart(n, b, j);
    }
  }

  lemma FreeRunIsNode(n: nat, live: set<nat>, off: nat, len: nat) returns (j: nat)
    requires IsPow2(n) && Placed(n, live) && IsPow2(len) && FreeAt(n, live, off, len)
    ensures j < 2 * n - 1 && Lo(n, j) == off && Len(n, j) == len && NodeAt(n, off, len) == j
  {
    j := Descend(n, 0, off, len);
    NodeAtNode(n, j);
  }

  ghost function ReleasedAll(n: nat, live: set<nat>, units: seq<int>): set<nat> {
    if units == [] then live else ReleasedAll(n, Released(n, live, units[0]), units[1..])
  }

  lemma {:induction false} ReleasedAllNext(n: nat, live: set<nat>, units: seq<int>, unit: int)
    ensures ReleasedAll(n, live, units + [unit]) == Released(n, ReleasedAll(n, live, units), unit)
    decreases |units|
  {
    if units == [] {
      assert [unit][1..] == [];
    } else {
      assert (units + [unit])[1..] == units[1..] + [unit];
      ReleasedAllNext(n, Released(n, live, units[0]), units[1..], unit);
    }
  }

  lemma {:induction false} ReleasedAllMembers(n: nat, live: set<nat>, units: seq<int>)
    ensures forall b :: b in ReleasedAll(n, live, units) <==>
              b in live && forall k :: 0 <= k < |units| ==> !Covers(n, b, units[k])
  {
    if units != [] {
      ReleasedAllMembers(n, Released(n, live, units[0]), units[1..]);
      assert forall k :: 1 <= k < |units| ==> units[k] == units[1..][k - 1];
      assert forall k :: 0 <= k < |units| - 1 ==> units[1..][k] == units[k + 1];
    }
  }

  /** Releasing one unit of every live block, in any order, leaves exactly the words of a new arena. */
  lemma FreeingAllRestores(n: nat, live: set<nat>, units: seq<int>, words: seq<nat>)
    requires IsPow2(n) && forall b :: b in live ==> exists k :: 0 <= k < |units| && Covers(n, b, units[k])
    requires AllRight(n, ReleasedAll(n, live, units), words)
    ensures ReleasedAll(n, live, units) == {}
    ensures words[..2 * n - 1] == Fresh(n)
  {
    ReleasedAllMembers(n, live, units);
    assert ReleasedAll(n, live, units) == {};
    EmptyIsFresh(n, words);
  }

  /** On the object itself: an address in each live block given back, in any order, and the array is that of a new arena. */
  method FreeAll(buddy: Buddy, addrs: seq<int>)
    requires buddy.Valid()
    requires forall b :: b in buddy.live ==> exists k :: 0 <= k < |addrs| && Covers(buddy.size, b, addrs[k] / 4096)
    modifies buddy, buddy.longest
    ensures buddy.Valid() && buddy.live == {} && buddy.longest[..2 * buddy.size - 1] == Fresh(buddy.size)
  {
    ghost var n, live, units := buddy.size, buddy.live, seq(|addrs|, k requires 0 <= k < |addrs| => addrs[k] / 4096);
    assert forall b :: b in live ==> exists k :: 0 <= k < |units| && Covers(n, b, units[k]) by {
      forall b | b in live ensures exists k :: 0 <= k < |units| && Covers(n, b, units[k]) {
        var k :| 0 <= k < |addrs| && Covers(n, b, addrs[k] / 4096);
        assert Covers(n, b, units[k]);
      }
    }
    var k := 0;
    while k < |addrs|
      invariant k <= |addrs| && buddy.Valid() && buddy.live == ReleasedAll(n, live, units[..k])
    {
      ReleasedAllNext(n, live, units[..k], units[k]);
      assert units[..k + 1] == units[..k] + [units[k]];
      buddy.Free(addrs[k]);
      k := k + 1;
    }
    assert units[..k] == units;
    FreeingAllRestores(n, live, units, buddy.longest[..]);
  }
}
