/** The three quicksorts of the size-ordered free lists, which differ only in the key they compare. */
module HoleSort {
  import opened FreeLists

  datatype Order = ByAddr | BySizeUp | BySizeDown

  function Key(o: Order, e: FreeInfo): int {
    match o
    case ByAddr => e.addr
    case BySizeUp => e.size
    case BySizeDown => 0 - e.size as int
  }

  ghost predicate Sorted(o: Order, s: seq<FreeInfo>) {
    forall i, j :: 0 <= i < j < |s| ==> Key(o, s[i]) <= Key(o, s[j])
  }

  /** Same entries, differently arranged between lo and hi only. */
  ghost predicate Rearranged(s: seq<FreeInfo>, t: seq<FreeInfo>, lo: int, hi: int) {
    && |s| == |t| && 0 <= lo <= hi <= |s|
    && multiset(s) == multiset(t)
    && s[..lo] == t[..lo] && s[hi..] == t[hi..]
  }

  lemma RearrangedTrans(s: seq<FreeInfo>, t: seq<FreeInfo>, u: seq<FreeInfo>, lo: int, hi: int, lo': int, hi': int)
    requires Rearranged(s, t, lo, hi) && Rearranged(t, u, lo', hi') && lo <= lo' && hi' <= hi
    ensures Rearranged(s, u, lo, hi)
  {
    assert t[..lo] == t[..lo'][..lo] == u[..lo'][..lo] == u[..lo];
    assert t[hi..] == t[hi'..][hi - hi'..] == u[hi'..][hi - hi'..] == u[hi..];
  }

  lemma PartSame(s: seq<FreeInfo>, t: seq<FreeInfo>, lo: int, hi: int)
    requires Rearranged(s, t, lo, hi)
    ensures multiset(s[lo..hi]) == multiset(t[lo..hi])
  {
    assert s == s[..lo] + s[lo..hi] + s[hi..];
    assert t == t[..lo] + t[lo..hi] + t[hi..];
    var rest := multiset(s[..lo]) + multiset(s[hi..]);
    assert multiset(s) == rest + multiset(s[lo..hi]) && multiset(t) == rest + multiset(t[lo..hi]);
    assert multiset(s[lo..hi]) == multiset(s) - rest;
    assert multiset(t[lo..hi]) == multiset(t) - rest;
  }

  ghost predicate AllBelow(o: Order, s: seq<FreeInfo>, key: int) { forall e :: e in s ==> Key(o, e) < key }

  ghost predicate AllAtLeast(o: Order, s: seq<FreeInfo>, key: int) { forall e :: e in s ==> Key(o, e) >= key }

  /** Whatever held of all the entries of the part still does. */
  lemma PartKeeps(s: seq<FreeInfo>, t: seq<FreeInfo>, lo: int, hi: int, o: Order, key: int)
    requires Rearranged(s, t, lo, hi)
    ensures AllBelow(o, s[lo..hi], key) ==> AllBelow(o, t[lo..hi], key)
    ensures AllAtLeast(o, s[lo..hi], key) ==> AllAtLeast(o, t[lo..hi], key)
  {
    PartSame(s, t, lo, hi);
    forall e | e in t[lo..hi] ensures e in s[lo..hi] {
      assert e in multiset(t[lo..hi]);
    }
  }

  /** Two sorted parts around an entry that bounds both. */
  lemma SortedAround(o: Order, l: seq<FreeInfo>, e: FreeInfo, r: seq<FreeInfo>)
    requires Sorted(o, l) && Sorted(o, r) && AllBelow(o, l, Key(o, e)) && AllAtLeast(o, r, Key(o, e))
    ensures Sorted(o, l + [e] + r)
  {
    var s := l + [e] + r;
    forall i, j | 0 <= i < j < |s| ensures Key(o, s[i]) <= Key(o, s[j]) {
      assert i < |l| ==> s[i] == l[i] && l[i] in l;
      assert j < |l| ==> s[j] == l[j];
      assert i > |l| ==> s[i] == r[i - |l| - 1];
      assert j > |l| ==> s[j] == r[j - |l| - 1] && r[j - |l| - 1] in r;
    }
  }

  /** The entries are those of `was`, but for the pivot, whose place is the hole. */
  ghost predicate Holed(was: seq<FreeInfo>, now: seq<FreeInfo>, hole: int, pivot: FreeInfo, lo: int, hi: int) {
    && 0 <= lo <= hole < hi <= |now| && Rearranged(was, now[hole := pivot], lo, hi)
  }

  /** Filling the hole from another place moves the hole there. */
  lemma HoleMoves(was: seq<FreeInfo>, now: seq<FreeInfo>, i: int, j: int, pivot: FreeInfo, lo: int, hi: int)
    requires Holed(was, now, i, pivot, lo, hi) && lo <= j < hi && i != j
    ensures Holed(was, now[i := now[j]], j, pivot, lo, hi)
  {
    var filled := now[i := now[j]][j := pivot];
    var before := now[i := pivot];
    assert filled == before[i := before[j]][j := before[i]];
    assert multiset(filled) == multiset(before);
    assert filled[..lo] == before[..lo] && filled[hi..] == before[hi..];
  }

  /** From j down to the first entry that sorts before the key. */
  method ScanDown(a: array<FreeInfo>, o: Order, i: int, j0: int, key: int) returns (j: int)
    requires 0 <= i <= j0 < a.Length
    ensures i <= j <= j0 && (j == i || Key(o, a[j]) < key)
    ensures forall k :: j < k <= j0 ==> Key(o, a[k]) >= key
  {
    j := j0;
    while i < j && Key(o, a[j]) >= key
      invariant i <= j <= j0
      invariant forall k :: j < k <= j0 ==> Key(o, a[k]) >= key
    {
      j := j - 1;
    }
  }

  /** From i up to the first entry that does not sort before the key. */
  method ScanUp(a: array<FreeInfo>, o: Order, i0: int, j: int, key: int) returns (i: int)
    requires 0 <= i0 <= j < a.Length
    ensures i0 <= i <= j && (i == j || Key(o, a[i]) >= key)
    ensures forall k :: i0 <= k < i ==> Key(o, a[k]) < key
  {
    i := i0;
    while i < j && Key(o, a[i]) < key
      invariant i0 <= i <= j
      invariant forall k :: i0 <= k < i ==> Key(o, a[k]) < key
    {
      i := i + 1;
    }
  }

  /** One pass with a hole: what sorts before the entry at low goes below it, the rest above it. */
  method Partition(a: array<FreeInfo>, o: Order, low: int, high: int) returns (i: int)
    requires 0 <= low < high < a.Length
    modifies a
    ensures low <= i <= high
    ensures Rearranged(old(a[..]), a[..], low, high + 1)
    ensures forall k :: low <= k < i ==> Key(o, a[k]) < Key(o, a[i])
    ensures forall k :: i < k <= high ==> Key(o, a[k]) >= Key(o, a[i])
  {
    ghost var was := a[..];
    var pivot := a[low];
    i := low;
    var j := high;
    assert was[low := pivot] == was;
    while i < j
      invariant low <= i <= j <= high && Holed(was, a[..], i, pivot, low, high + 1)
      invariant forall k :: low <= k < i ==> Key(o, a[k]) < Key(o, pivot)
      invariant forall k :: j < k <= high ==> Key(o, a[k]) >= Key(o, pivot)
      decreases j - i
    {
      i, j := Exchange(a, o, i, j, pivot, was, low, high);
    }
    ghost var last := a[..];
    a[i] := pivot;
    assert a[..] == last[i := pivot];
  }

  /** The hole is filled from place `from`, which is then the hole. */
  method MoveHole(a: array<FreeInfo>, hole: int, from: int, ghost pivot: FreeInfo, ghost was: seq<FreeInfo>, ghost low: int, ghost high: int)
    requires 0 <= low <= from <= high < a.Length && from != hole && Holed(was, a[..], hole, pivot, low, high + 1)
    modifies a
    ensures a[hole] == old(a[from]) && forall k :: 0 <= k < a.Length && k != hole ==> a[k] == old(a[k])
    ensures Holed(was, a[..], from, pivot, low, high + 1)
  {
    ghost var now := a[..];
    HoleMoves(was, now, hole, from, pivot, low, high + 1);
    a[hole] := a[from];
    assert a[..] == now[hole := now[from]];
  }

  /** One round: an entry from above into the hole, and one from below into the hole it left. */
  method Exchange(a: array<FreeInfo>, o: Order, i0: int, j0: int, pivot: FreeInfo, ghost was: seq<FreeInfo>, ghost low: int, ghost high: int)
    returns (i: int, j: int)
    requires 0 <= low <= i0 < j0 <= high < a.Length && Holed(was, a[..], i0, pivot, low, high + 1)
    modifies a
    ensures i0 <= i <= j <= j0 && j - i < j0 - i0 && Holed(was, a[..], i, pivot, low, high + 1)
    ensures forall k :: i0 <= k < i ==> Key(o, a[k]) < Key(o, pivot)
    ensures forall k :: j < k <= j0 ==> Key(o, a[k]) >= Key(o, pivot)
    ensures forall k :: 0 <= k < i0 || j0 < k < a.Length ==> a[k] == old(a[k])
  {
    i := i0;
    j := ScanDown(a, o, i, j0, Key(o, pivot));
    if i < j {
      MoveHole(a, i, j, pivot, was, low, high);
      i := i + 1;
    }
    i := ScanUp(a, o, i, j, Key(o, pivot));
    if i < j {
      MoveHole(a, j, i, pivot, was, low, high);
      j := j - 1;
    }
  }

  method QSort(a: array<FreeInfo>, o: Order, low: int, high: int)
    requires 0 <= low && -1 <= high < a.Length
    modifies a
    ensures low <= high ==> Rearranged(old(a[..]), a[..], low, high + 1) && Sorted(o, a[low..high + 1])
    ensures low > high ==> a[..] == old(a[..])
    decreases high - low
  {
    if low < high {
      ghost var s0 := a[..];
      var i := Partition(a, o, low, high);
      ghost var s1, key := a[..], Key(o, a[i]);
      assert AllBelow(o, s1[low..i], key) && AllAtLeast(o, s1[i + 1..high + 1], key);
      QSort(a, o, low, i - 1);
      ghost var s2 := a[..];
      QSort(a, o, i + 1, high);
      QSortDone(o, s0, s1, s2, a[..], low, i, high);
    }
  }

  lemma QSortDone(o: Order, s0: seq<FreeInfo>, s1: seq<FreeInfo>, s2: seq<FreeInfo>, s3: seq<FreeInfo>, low: int, i: int, high: int)
    requires 0 <= low <= i <= high < |s0| && Rearranged(s0, s1, low, high + 1)
    requires AllBelow(o, s1[low..i], Key(o, s1[i])) && AllAtLeast(o, s1[i + 1..high + 1], Key(o, s1[i]))
    requires if low <= i - 1 then Rearranged(s1, s2, low, i) && Sorted(o, s2[low..i]) else s2 == s1
    requires if i + 1 <= high then Rearranged(s2, s3, i + 1, high + 1) && Sorted(o, s3[i + 1..high + 1]) else s3 == s2
    ensures Rearranged(s0, s3, low, high + 1) && Sorted(o, s3[low..high + 1])
  {
    assert Rearranged(s1, s2, low, i) && Rearranged(s2, s3, i + 1, high + 1);
    RearrangedTrans(s0, s1, s2, low, high + 1, low, i);
    RearrangedTrans(s0, s2, s3, low, high + 1, i + 1, high + 1);
    PartsSorted(o, s1, s2, s3, low, i, high);
  }

  lemma PartsSorted(o: Order, s1: seq<FreeInfo>, s2: seq<FreeInfo>, s3: seq<FreeInfo>, low: int, i: int, high: int)
    requires 0 <= low <= i <= high < |s1| && Rearranged(s1, s2, low, i) && Rearranged(s2, s3, i + 1, high + 1)
    requires AllBelow(o, s1[low..i], Key(o, s1[i])) && AllAtLeast(o, s1[i + 1..high + 1], Key(o, s1[i]))
    requires Sorted(o, s2[low..i]) && Sorted(o, s3[i + 1..high + 1])
    ensures Sorted(o, s3[low..high + 1])
  {
    LeftStays(o, s1, s2, s3, low, i, high);
    RightStays(o, s1, s2, s3, low, i, high);
    SortedAround(o, s3[low..i], s3[i], s3[i + 1..high + 1]);
    assert s3[low..high + 1] == s3[low..i] + [s3[i]] + s3[i + 1..high + 1];
  }

  lemma LeftStays(o: Order, s1: seq<FreeInfo>, s2: seq<FreeInfo>, s3: seq<FreeInfo>, low: int, i: int, high: int)
    requires 0 <= low <= i <= high < |s1| && Rearranged(s1, s2, low, i) && Rearranged(s2, s3, i + 1, high + 1)
    requires AllBelow(o, s1[low..i], Key(o, s1[i]))
    ensures s3[low..i] == s2[low..i] && s3[i] == s1[i] && AllBelow(o, s3[low..i], Key(o, s3[i]))
  {
    PartKeeps(s1, s2, low, i, o, Key(o, s1[i]));
    OutsideSame(s1, s2, low, i, i, i + 1);
    OutsideSame(s2, s3, i + 1, high + 1, low, i);
    OutsideSame(s2, s3, i + 1, high + 1, i, i + 1);
    assert s3[i] == s3[i..i + 1][0] == s2[i..i + 1][0] == s1[i..i + 1][0] == s1[i];
  }

  lemma RightStays(o: Order, s1: seq<FreeInfo>, s2: seq<FreeInfo>, s3: seq<FreeInfo>, low: int, i: int, high: int)
    requires 0 <= low <= i <= high < |s1| && Rearranged(s1, s2, low, i) && Rearranged(s2, s3, i + 1, high + 1)
    requires AllAtLeast(o, s1[i + 1..high + 1], Key(o, s1[i]))
    ensures AllAtLeast(o, s3[i + 1..high + 1], Key(o, s1[i]))
  {
    OutsideSame(s1, s2, low, i, i + 1, high + 1);
    PartKeeps(s2, s3, i + 1, high + 1, o, Key(o, s1[i]));
  }

  lemma OutsideSame(s: seq<FreeInfo>, t: seq<FreeInfo>, lo: int, hi: int, a: int, b: int)
    requires Rearranged(s, t, lo, hi) && 0 <= a <= b <= |s| && (b <= lo || hi <= a)
    ensures s[a..b] == t[a..b]
  {
    forall k | a <= k < b ensures s[k] == t[k] {
      if b <= lo {
        assert s[..lo][k] == t[..lo][k];
      } else {
        assert s[hi..][k - hi] == t[hi..][k - hi];
      }
    }
  }
}
