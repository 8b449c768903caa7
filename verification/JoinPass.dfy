/**
 * The pass by which the sized free lists join neighbours, over a list in order of address: what it does, and
 * when that is what it is for.
 */
module JoinPass {
  import opened FreeLists
  import opened HoleSort

  ghost predicate Adjoins(e: FreeInfo, f: FreeInfo) { e.addr + e.size == f.addr }

  function Copies(n: nat, e: FreeInfo): (s: seq<FreeInfo>)
    ensures |s| == n && forall k :: 0 <= k < n ==> s[k] == e
  {
    seq(n, _ => e)
  }

  /** Entries m - 1 and m become one, and every place from m on receives a copy of entry m + 1. */
  function Joined(s: seq<FreeInfo>, m: nat): seq<FreeInfo>
    requires 0 < m < |s|
  {
    s[..m - 1] + [FreeInfo(s[m - 1].addr, s[m - 1].size + s[m].size)]
    + if m + 1 < |s| then Copies(|s| - m - 1, s[m + 1]) else []
  }

  /** The list after the pass that joins neighbours, from position m on. */
  ghost function Merged(s: seq<FreeInfo>, m: nat): (r: seq<FreeInfo>)
    requires 0 < m
    ensures |r| <= |s| && (s != [] ==> r != [])
    decreases |s| - m
  {
    if m >= |s| then s
    else if Adjoins(s[m - 1], s[m]) then Merged(Joined(s, m), m + 1)
    else Merged(s, m + 1)
  }

  /** The pass changes nothing exactly when no entry ends where the next one in the list begins. */
  lemma {:induction false} MergedKeepsAll(s: seq<FreeInfo>, m: nat)
    requires 0 < m
    ensures Merged(s, m) == s <==> forall k :: m <= k < |s| ==> !Adjoins(s[k - 1], s[k])
    decreases |s| - m
  {
    if m < |s| {
      if Adjoins(s[m - 1], s[m]) {
        assert |Merged(Joined(s, m), m + 1)| < |s|;
      } else {
        MergedKeepsAll(s, m + 1);
      }
    }
  }

  // ---- a pass makes one join at most ----

  /** Blocks that hold something, none reaching into the next. */
  ghost predicate Ascending(s: seq<FreeInfo>) {
    && (forall i :: 0 <= i < |s| ==> s[i].size > 0)
    && (forall i, j :: 0 <= i < j < |s| ==> s[i].addr + s[i].size <= s[j].addr)
  }

  /** Entry k is the first, from m on, that begins where the entry before it ends. */
  ghost predicate FirstJoin(s: seq<FreeInfo>, m: nat, k: nat) {
    0 < m <= k < |s| && Adjoins(s[k - 1], s[k]) && forall i :: m <= i < k ==> !Adjoins(s[i - 1], s[i])
  }

  /** After a join what follows are copies of one entry, which do not adjoin each other. */
  lemma {:induction false} MergedOnce(s: seq<FreeInfo>, m: nat, k: nat)
    requires FirstJoin(s, m, k) && forall i :: 0 <= i < |s| ==> s[i].size > 0
    ensures Merged(s, m) == Joined(s, k)
    decreases k - m
  {
    if m < k {
      MergedOnce(s, m + 1, k);
    } else {
      MergedKeepsAll(Joined(s, k), k + 1);
    }
  }

  /**
   * What a pass leaves, entry by entry: the entries before the first pair that adjoins, the pair as one, and then
   * nothing but copies of the entry that followed it.
   */
  lemma MergedEntries(s: seq<FreeInfo>, k: nat)
    requires FirstJoin(s, 1, k) && forall i :: 0 <= i < |s| ==> s[i].size > 0
    ensures var r := Merged(s, 1);
            && |r| == |s| - 1 && (forall i :: 0 <= i < k - 1 ==> r[i] == s[i])
            && r[k - 1].addr == s[k - 1].addr && r[k - 1].size == s[k - 1].size + s[k].size
            && forall i :: k <= i < |s| - 1 ==> r[i] == s[k + 1]
  {
    MergedOnce(s, 1, k);
  }

  /** The first place from m on that adjoins, or the list's length. */
  lemma {:induction false} FirstPlace(s: seq<FreeInfo>, m: nat) returns (k: nat)
    requires 0 < m <= |s|
    ensures m <= k <= |s| && (k < |s| ==> FirstJoin(s, m, k)) && forall i :: m <= i < k ==> !Adjoins(s[i - 1], s[i])
    decreases |s| - m
  {
    if m == |s| || Adjoins(s[m - 1], s[m]) {
      k := m;
    } else {
      k := FirstPlace(s, m + 1);
    }
  }

  /** The list with the pair joined and the gap closed: what the pass is for. */
  function Closed(s: seq<FreeInfo>, k: nat): seq<FreeInfo>
    requires 0 < k < |s|
  {
    s[..k - 1] + [FreeInfo(s[k - 1].addr, s[k - 1].size + s[k].size)] + s[k + 1..]
  }

  /**
   * The shift closes the gap, keeping all other entries, exactly when at most one entry follows the joined
   * pair; otherwise the entries after that one are overwritten with copies of it.
   */
  lemma JoinedClosesGap(s: seq<FreeInfo>, k: nat)
    requires Ascending(s) && 0 < k < |s|
    ensures Joined(s, k) == Closed(s, k) <==> |s| <= k + 2
    ensures multiset(Joined(s, k)) == multiset(Closed(s, k)) <==> |s| <= k + 2
  {
    if |s| > k + 2 {
      assert Closed(s, k)[k + 1] == s[k + 2];
      assert s[k + 2] in multiset(Closed(s, k));
      assert s[k + 2] !in Joined(s, k);
    } else {
      assert forall i :: 0 <= i < |Closed(s, k)| ==> Joined(s, k)[i] == Closed(s, k)[i];
    }
  }

  /** The pass does what it is for just when nothing adjoins, or the first pair that does has at most one entry after it. */
  lemma MergedWorksIff(s: seq<FreeInfo>)
    requires Ascending(s)
    ensures (Merged(s, 1) == s || exists k: nat :: FirstJoin(s, 1, k) && Merged(s, 1) == Closed(s, k))
            <==> forall k: nat :: FirstJoin(s, 1, k) ==> |s| <= k + 2
  {
    MergedKeepsAll(s, 1);
    if k: nat :| FirstJoin(s, 1, k) {
      MergedOnce(s, 1, k);
      JoinedClosesGap(s, k);
      forall i: nat | FirstJoin(s, 1, i) ensures i == k {
        FirstIsOne(s, 1, i, k);
      }
    } else {
      forall k | 1 <= k < |s| ensures !Adjoins(s[k - 1], s[k]) {
        if Adjoins(s[k - 1], s[k]) {
          var j := FirstOf(s, 1, k);
        }
      }
    }
  }

  lemma FirstIsOne(s: seq<FreeInfo>, m: nat, i: nat, k: nat)
    requires FirstJoin(s, m, i) && FirstJoin(s, m, k)
    ensures i == k
  {
  }

  /** A block between two free neighbours is never joined with both. */
  lemma MergedMissesChain(s: seq<FreeInfo>, i: nat)
    requires Ascending(s) && 0 < i < |s| - 1 && Adjoins(s[i - 1], s[i]) && Adjoins(s[i], s[i + 1])
    ensures FreeInfo(s[i - 1].addr, s[i - 1].size + s[i].size + s[i + 1].size) !in Merged(s, 1)
  {
    var k := FirstOf(s, 1, i);
    MergedOnce(s, 1, k);
  }

  lemma {:induction false} FirstOf(s: seq<FreeInfo>, m: nat, i: nat) returns (k: nat)
    requires 0 < m <= i < |s| && Adjoins(s[i - 1], s[i])
    ensures FirstJoin(s, m, k) && k <= i
    decreases i - m
  {
    if Adjoins(s[m - 1], s[m]) {
      k := m;
    } else {
      k := FirstOf(s, m + 1, i);
    }
  }

  /** Three blocks in a row: the first two are joined, the third is left beside them. */
  lemma MissedChain()
    ensures Merged([FreeInfo(0, 1), FreeInfo(1, 1), FreeInfo(2, 1)], 1) == [FreeInfo(0, 2), FreeInfo(2, 1)]
  {
    var s := [FreeInfo(0, 1), FreeInfo(1, 1), FreeInfo(2, 1)];
    MergedOnce(s, 1, 1);
  }

  // ---- freeing a block ----

  /** What a list of free blocks becomes when a block is put in: by address, through the joining pass. */
  ghost predicate Absorbed(was: seq<FreeInfo>, e: FreeInfo, now: seq<FreeInfo>) {
    exists t :: Sorted(ByAddr, t) && multiset(t) == multiset(was) + multiset{e} && multiset(now) == multiset(Merged(t, 1))
  }

  /** When no block of the list adjoins another, nothing is joined and the list gains just the new block. */
  lemma AbsorbedApart(was: seq<FreeInfo>, e: FreeInfo, now: seq<FreeInfo>)
    requires Absorbed(was, e, now)
    requires forall f, g :: f in was + [e] && g in was + [e] ==> !Adjoins(f, g)
    ensures multiset(now) == multiset(was) + multiset{e}
  {
    var t :| Sorted(ByAddr, t) && multiset(t) == multiset(was) + multiset{e} && multiset(now) == multiset(Merged(t, 1));
    forall k | 1 <= k < |t| ensures !Adjoins(t[k - 1], t[k]) {
      assert t[k - 1] in multiset(t) && t[k] in multiset(t);
    }
    MergedKeepsAll(t, 1);
  }

  /** No two blocks of the list touch or overlap. */
  ghost predicate Tidy(s: seq<FreeInfo>) {
    && (forall f :: f in s ==> f.size > 0 && multiset(s)[f] == 1)
    && (forall f, g :: f in s && g in s && f != g ==> f.addr + f.size < g.addr || g.addr + g.size < f.addr)
  }

  /** A block of none of the bytes in the list. */
  ghost predicate Outside(s: seq<FreeInfo>, e: FreeInfo) {
    e.size > 0 && forall f :: f in s ==> f.addr + f.size <= e.addr || e.addr + e.size <= f.addr
  }

  /** The blocks of the list that lie above a block. */
  ghost function Above(s: seq<FreeInfo>, e: FreeInfo): set<FreeInfo> { set f | f in s && f.addr > e.addr }

  /** The blocks of a tidy list and a further one, in order of address. */
  ghost predicate Arranged(t: seq<FreeInfo>, was: seq<FreeInfo>, e: FreeInfo) {
    Tidy(was) && Outside(was, e) && Sorted(ByAddr, t) && multiset(t) == multiset(was) + multiset{e}
  }

  lemma Members(t: seq<FreeInfo>, was: seq<FreeInfo>, e: FreeInfo)
    requires Arranged(t, was, e)
    ensures forall f :: f in t <==> f in was || f == e
  {
    forall f ensures f in t <==> f in was || f == e {
      assert f in t <==> f in multiset(t);
      assert f in was <==> f in multiset(was);
    }
  }

  lemma Twice(t: seq<FreeInfo>, i: nat, j: nat)
    requires i < j < |t| && t[i] == t[j]
    ensures multiset(t)[t[i]] >= 2
  {
    assert t == t[..j] + t[j..];
    assert t[i] in multiset(t[..j]) && t[j] in multiset(t[j..]);
  }

  lemma ArrangedAscends(t: seq<FreeInfo>, was: seq<FreeInfo>, e: FreeInfo)
    requires Arranged(t, was, e)
    ensures Ascending(t)
    ensures forall i :: 0 < i < |t| && Adjoins(t[i - 1], t[i]) ==> t[i - 1] == e || t[i] == e
  {
    Members(t, was, e);
    assert e !in was;
    forall i, j | 0 <= i < j < |t| ensures t[i].addr + t[i].size <= t[j].addr && t[i] != t[j] {
      assert Key(ByAddr, t[i]) <= Key(ByAddr, t[j]);
      if t[i] == t[j] { Twice(t, i, j); }
    }
  }

  ghost function SetOf(s: seq<FreeInfo>): set<FreeInfo> { set f | f in s }

  lemma {:induction false} DistinctSet(s: seq<FreeInfo>)
    requires forall i, j :: 0 <= i < j < |s| ==> s[i] != s[j]
    ensures |SetOf(s)| == |s|
  {
    if s != [] {
      DistinctSet(s[1..]);
      assert SetOf(s) == {s[0]} + SetOf(s[1..]);
    }
  }

  /** What lies above the block is what follows it. */
  lemma AboveFollows(t: seq<FreeInfo>, was: seq<FreeInfo>, e: FreeInfo, i: nat)
    requires Arranged(t, was, e) && i < |t| && t[i] == e
    ensures |Above(was, e)| == |t| - i - 1
  {
    ArrangedAscends(t, was, e);
    Members(t, was, e);
    DistinctSet(t[i + 1..]);
    assert Above(was, e) == SetOf(t[i + 1..]);
  }

  lemma Consecutive(t: seq<FreeInfo>, i: nat, j: nat)
    requires Ascending(t) && i < |t| && j < |t| && Adjoins(t[i], t[j])
    ensures j == i + 1
  {
    if i + 1 < |t| {
      assert t[i].addr + t[i].size <= t[i + 1].addr && t[i + 1].size > 0;
    }
  }

  /** Where the block and one that it adjoins are in the list; nothing before them adjoins. */
  lemma Neighbours(t: seq<FreeInfo>, was: seq<FreeInfo>, e: FreeInfo, i: nat, j: nat)
    requires Arranged(t, was, e) && i < |t| && j < |t| && Adjoins(t[i], t[j])
    requires t[j] == e || (t[i] == e && forall f :: f in was ==> !Adjoins(f, e))
    ensures j == i + 1 && FirstJoin(t, 1, j)
  {
    ArrangedAscends(t, was, e);
    Members(t, was, e);
    Consecutive(t, i, j);
    forall k | 1 <= k < j ensures !Adjoins(t[k - 1], t[k]) {
      if Adjoins(t[k - 1], t[k]) {
        assert t[k - 1] == e || t[k] == e;
        OnlyOnce(t, was, e);
      }
    }
  }

  lemma OnlyOnce(t: seq<FreeInfo>, was: seq<FreeInfo>, e: FreeInfo)
    requires Arranged(t, was, e)
    ensures forall i, j :: 0 <= i < j < |t| ==> t[i] != t[j]
  {
    ArrangedAscends(t, was, e);
    forall i, j | 0 <= i < j < |t| ensures t[i] != t[j] {
      assert t[i].addr + t[i].size <= t[j].addr;
    }
  }

  lemma ClosedHolds(t: seq<FreeInfo>, k: nat)
    requires 0 < k < |t|
    ensures multiset(Closed(t, k))
            == multiset(t) - multiset{t[k - 1]} - multiset{t[k]} + multiset{FreeInfo(t[k - 1].addr, t[k - 1].size + t[k].size)}
  {
    assert t == t[..k - 1] + [t[k - 1]] + [t[k]] + t[k + 1..];
  }

  /** The list in order of address, as the pass finds it. */
  lemma Arrangement(was: seq<FreeInfo>, e: FreeInfo, now: seq<FreeInfo>) returns (t: seq<FreeInfo>)
    requires Absorbed(was, e, now) && Tidy(was) && Outside(was, e)
    ensures Arranged(t, was, e) && Ascending(t) && multiset(now) == multiset(Merged(t, 1))
  {
    t :| Sorted(ByAddr, t) && multiset(t) == multiset(was) + multiset{e} && multiset(now) == multiset(Merged(t, 1));
    ArrangedAscends(t, was, e);
  }

  lemma Place(t: seq<FreeInfo>, was: seq<FreeInfo>, e: FreeInfo, f: FreeInfo) returns (i: nat)
    requires Arranged(t, was, e) && (f in was || f == e)
    ensures i < |t| && t[i] == f
  {
    Members(t, was, e);
    i :| 0 <= i < |t| && t[i] == f;
  }

  lemma Pair(t: seq<FreeInfo>, was: seq<FreeInfo>, e: FreeInfo, f: FreeInfo, g: FreeInfo) returns (k: nat)
    requires Arranged(t, was, e) && Adjoins(f, g)
    requires (f in was && g == e) || (f == e && g in was && forall h :: h in was ==> !Adjoins(h, e))
    ensures FirstJoin(t, 1, k) && t[k - 1] == f && t[k] == g
  {
    var i := Place(t, was, e, f);
    k := Place(t, was, e, g);
    Neighbours(t, was, e, i, k);
  }

  /** `after` is what the list should hold once entries k - 1 and k are joined. */
  lemma JoinAtIff(t: seq<FreeInfo>, now: seq<FreeInfo>, k: nat, after: multiset<FreeInfo>)
    requires Ascending(t) && FirstJoin(t, 1, k) && multiset(now) == multiset(Merged(t, 1))
    requires after == multiset(t) - multiset{t[k - 1]} - multiset{t[k]} + multiset{FreeInfo(t[k - 1].addr, t[k - 1].size + t[k].size)}
    ensures multiset(now) == after <==> |t| <= k + 2
  {
    MergedOnce(t, 1, k);
    JoinedClosesGap(t, k);
    ClosedHolds(t, k);
  }

  lemma WithAndWithout(m: multiset<FreeInfo>, all: multiset<FreeInfo>, e: FreeInfo, f: FreeInfo, j: FreeInfo)
    requires f in m && all == m + multiset{e}
    ensures m - multiset{f} + multiset{j} == all - multiset{f} - multiset{e} + multiset{j}
    ensures m - multiset{f} + multiset{j} == all - multiset{e} - multiset{f} + multiset{j}
  {
  }

  /**
   * Freeing a block next to one that ends where it begins does what it should, giving the two as one block and
   * keeping all others, just when at most one block lies above it; it may adjoin that one or not.
   */
  lemma FreedAfter(was: seq<FreeInfo>, e: FreeInfo, now: seq<FreeInfo>, f: FreeInfo)
    requires Absorbed(was, e, now) && Tidy(was) && Outside(was, e) && f in was && Adjoins(f, e)
    ensures multiset(now) == multiset(was) - multiset{f} + multiset{FreeInfo(f.addr, f.size + e.size)} <==> |Above(was, e)| <= 1
  {
    var t := Arrangement(was, e, now);
    var k := Pair(t, was, e, f, e);
    WithAndWithout(multiset(was), multiset(t), e, f, FreeInfo(f.addr, f.size + e.size));
    JoinAtIff(t, now, k, multiset(was) - multiset{f} + multiset{FreeInfo(f.addr, f.size + e.size)});
    AboveFollows(t, was, e, k);
  }

  /** The same when only the block above is free: then at most one further block may lie above that. */
  lemma FreedBefore(was: seq<FreeInfo>, e: FreeInfo, now: seq<FreeInfo>, g: FreeInfo)
    requires Absorbed(was, e, now) && Tidy(was) && Outside(was, e) && g in was && Adjoins(e, g)
    requires forall f :: f in was ==> !Adjoins(f, e)
    ensures multiset(now) == multiset(was) - multiset{g} + multiset{FreeInfo(e.addr, e.size + g.size)} <==> |Above(was, e)| <= 2
  {
    var t := Arrangement(was, e, now);
    var k := Pair(t, was, e, e, g);
    WithAndWithout(multiset(was), multiset(t), e, g, FreeInfo(e.addr, e.size + g.size));
    JoinAtIff(t, now, k, multiset(was) - multiset{g} + multiset{FreeInfo(e.addr, e.size + g.size)});
    AboveFollows(t, was, e, k - 1);
  }

  lemma SameMembers(s: seq<FreeInfo>, t: seq<FreeInfo>, e: FreeInfo)
    requires multiset(s) == multiset(t)
    ensures e in s <==> e in t
  {
    assert e in s <==> e in multiset(s);
    assert e in t <==> e in multiset(t);
  }

  /** A block freed between two free ones never becomes one block with both. */
  lemma FreedBetween(was: seq<FreeInfo>, e: FreeInfo, now: seq<FreeInfo>, f: FreeInfo, g: FreeInfo)
    requires Absorbed(was, e, now) && Tidy(was) && Outside(was, e) && f in was && g in was && Adjoins(f, e) && Adjoins(e, g)
    ensures FreeInfo(f.addr, f.size + e.size + g.size) !in now
  {
    var t := Arrangement(was, e, now);
    var k := Pair(t, was, e, f, e);
    var j := Place(t, was, e, g);
    Consecutive(t, k, j);
    MergedMissesChain(t, k);
    SameMembers(now, Merged(t, 1), FreeInfo(f.addr, f.size + e.size + g.size));
  }
}
