/**
  What each call returns and leaves behind, in terms of the heap before it: places, sizes and the order of the freelist,
  without the functions by which the allocator is defined.
 */
module HeapOutcomes {
  import opened HeapLayout
  import opened HeapSafety
  import opened HeapTheorems
  import opened HeapMerging

  // ----- wdmalloc

  lemma BestFitUnique(L: Layout, n: nat, k: nat)
    requires Sound(L) && k < |L.fl| && IsBestFit(L, n, k, |L.fl|)
    ensures BestFit(L, n, |L.fl|) == k
  {
    BestFitIs(L, n, |L.fl|);
    var r := BestFit(L, n, |L.fl|);
    assert Fits(L.blocks, L.fl[k], n);
  }

  /**
    `wdmalloc` hands out the last `n` bytes of the best fit if that leaves room for a header, and the whole of it if
    not.  Split or not, the order of the freelist stays.
   */
  lemma MallocOutcome(L: Layout, n: nat, k: nat, a: nat, t: nat)
    requires Sound(L) && k < |L.fl| && IsBestFit(L, n, k, |L.fl|) && a == L.fl[k] && a in L.blocks.tags
    requires t == L.blocks.tags[a].size
    ensures var (M, r) := Malloc(L, n);
      if t >= n + 12 then
        && r == a + 12 + t - n && M.fl == L.fl
        && r - 12 in M.blocks.tags && M.blocks.tags[r - 12].size == n
        && a in M.blocks.tags && M.blocks.tags[a].size == t - n - 12 && M.blocks.tags[a].free
      else
        && r == a + 12 && M.fl == L.fl[..k] + L.fl[k + 1..]
        && a in M.blocks.tags && M.blocks.tags[a].size == t && !M.blocks.tags[a].free
  {
    BestFitUnique(L, n, k);
    if t >= n + 12 {
      hide Split;
      SplitAt(L.blocks, a, t - n - 12, true, false, a);
      SplitAt(L.blocks, a, t - n - 12, true, false, a + t - n);
    }
  }

  // ----- wdfree

  /** The freelist after the free block `a`, so far unlisted, has merged with its free neighbours. */
  ghost predicate MergedList(B: Blocks, a: nat, fl: seq<nat>, fl': seq<nat>)
    requires a in B.tags
  {
    if PrevFree(B, a) && NextFree(B, a) then
      Next(B, a) in fl && forall k :: 0 <= k < |fl| && fl[k] == Next(B, a) ==> fl' == fl[..k] + fl[k + 1..]
    else if PrevFree(B, a) then fl' == fl
    else if NextFree(B, a) then
      && |fl'| == |fl| && Next(B, a) in fl
      && forall k :: 0 <= k < |fl| ==> fl'[k] == if fl[k] == Next(B, a) then a else fl[k]
    else fl' == [a] + fl
  }

  lemma CoalesceList(L: Layout, a: nat)
    requires SoundBut(L, a) && IsFree(L.blocks, a)
    ensures MergedList(L.blocks, a, L.fl, Coalesce(L, a).fl)
  {
    hide Fuse, Tagged, Measured;
    var fl, b := L.fl, Next(L.blocks, a);
    if NextFree(L.blocks, a) {
      assert IsFree(L.blocks, b) && b != a;
      OnlyAt(fl, b);
    }
  }

  lemma OnlyAt(s: seq<nat>, x: nat)
    requires Distinct(s) && x in s
    ensures forall k {:trigger s[k]} :: 0 <= k < |s| && s[k] == x ==> k == Pos(s, x)
  {
    assert s[Pos(s, x)] == x;
  }

  /** Where the block that a freed block `a` becomes part of starts and ends. */
  ghost predicate MergedBlock(B: Blocks, a: nat, R: Blocks)
    requires a in B.tags
  {
    var low := if PrevFree(B, a) then Prev(B, a) else a;
    var high := if NextFree(B, a) then Next(B, Next(B, a)) else Next(B, a);
    && low in R.tags && R.tags[low].free && Next(R, low) == high
    && forall x: nat :: x in R.tags <==> x in B.tags && !(low < x < high)
  }

  lemma CoalesceBlock(L: Layout, a: nat)
    requires SoundBut(L, a) && IsFree(L.blocks, a)
    ensures MergedBlock(L.blocks, a, Coalesce(L, a).blocks)
  {
    hide Coalesce, SoundBut;
    var low: nat := if PrevFree(L.blocks, a) then Prev(L.blocks, a) else a;
    CoalesceAt(L, a, low);
    forall x: nat
      ensures x in Coalesce(L, a).blocks.tags <==> x in L.blocks.tags && !(Low(L.blocks, a) < x < High(L.blocks, a))
    {
      CoalesceAt(L, a, x);
    }
  }

  lemma MarkNeighbours(B: Blocks, a: nat)
    requires Tagged(B) && a in B.tags
    ensures Next(Mark(B, a, true), a) == Next(B, a) && Prev(Mark(B, a, true), a) == Prev(B, a)
    ensures NextFree(Mark(B, a, true), a) == NextFree(B, a) && PrevFree(Mark(B, a, true), a) == PrevFree(B, a)
    ensures NextFree(B, a) ==> Next(Mark(B, a, true), Next(B, a)) == Next(B, Next(B, a))
  {
    assert BackTag(B, a);
  }

  /** `wdfree`: the block merges with its free neighbours, and the freelist keeps its order. */
  lemma FreeOutcome(L: Layout, p: nat)
    requires Sound(L) && Live(L, p) && L.fl != [] && p < L.blocks.end
    ensures MergedList(L.blocks, p - 12, L.fl, Free(L, p).fl)
    ensures MergedBlock(L.blocks, p - 12, Free(L, p).blocks)
  {
    hide Coalesce, MergedList, MergedBlock, Mark;
    var a := p - 12;
    var M := Layout(Mark(L.blocks, a, true), L.fl);
    assert TileAt(L.blocks, a);
    FreedSoundBut(L, a);
    CoalesceList(M, a);
    CoalesceBlock(M, a);
    MarkNeighbours(L.blocks, a);
    MergedSame(L.blocks, a, L.fl, Free(L, p));
  }

  lemma FreedSoundBut(L: Layout, a: nat)
    requires Sound(L) && IsUsed(L.blocks, a)
    ensures SoundBut(Layout(Mark(L.blocks, a, true), L.fl), a) && IsFree(Mark(L.blocks, a, true), a)
  {
    MarkTagged(L.blocks, a, true);
  }

  lemma MergedSame(B: Blocks, a: nat, fl: seq<nat>, R: Layout)
    requires Tagged(B) && a in B.tags && a in Mark(B, a, true).tags
    requires MergedList(Mark(B, a, true), a, fl, R.fl) && MergedBlock(Mark(B, a, true), a, R.blocks)
    ensures MergedList(B, a, fl, R.fl) && MergedBlock(B, a, R.blocks)
  {
    MarkNeighbours(B, a);
  }

  // ----- wdrealloc that shrinks, or has nothing to do

  /**
    `wdrealloc` to the size the block has returns it; to fewer bytes it returns it too, and cuts the block to exactly
    `n` bytes if at least 16 are left over, which become a free block that merges with a free one behind it.
   */
  lemma ShrinkOutcome(L: Layout, p: nat, n: nat, a: nat, s: nat)
    requires Sound(L) && Live(L, p) && L.fl != [] && a == p - 12 && s == L.blocks.tags[a].size && 0 < n <= s
    ensures Realloc(L, p, n).1 == p
    ensures s < n + 16 ==> Realloc(L, p, n).0 == L
    ensures s >= n + 16 ==> var R := Realloc(L, p, n).0; var b := p + n;
      && a in R.blocks.tags && R.blocks.tags[a].size == n
      && b in R.blocks.tags && R.blocks.tags[b].free
      && Next(R.blocks, b) == (if NextFree(L.blocks, a) then Next(L.blocks, Next(L.blocks, a)) else Next(L.blocks, a))
      && CutList(L.blocks, a, b, L.fl, R.fl)
  {
    hide Split, Coalesce, SoundBut, Sound, CutList;
    if s >= n + 16 {
      var S, b := Split(L.blocks, a, n, false, true), a + HDR + n;
      SplitSoundBut(L, a, n);
      var C := Coalesce(Layout(S, L.fl), b);
      CutAround(L, a, n, b, S);
      CoalesceList(Layout(S, L.fl), b);
      CoalesceAt(Layout(S, L.fl), b, a);
      CoalesceAt(Layout(S, L.fl), b, b);
      CutMerged(L.blocks, a, b, S, L.fl, C.fl);
    }
  }

  /** The remainder `b` of block `a` takes the place of a free block behind it, or goes to the front. */
  ghost predicate CutList(B: Blocks, a: nat, b: nat, fl: seq<nat>, fl': seq<nat>)
    requires a in B.tags
  {
    if NextFree(B, a) then
      |fl'| == |fl| && forall k :: 0 <= k < |fl| ==> fl'[k] == if fl[k] == Next(B, a) then b else fl[k]
    else fl' == [b] + fl
  }

  lemma CutAround(L: Layout, a: nat, n: nat, b: nat, S: Blocks)
    requires Sound(L) && IsUsed(L.blocks, a) && n + 12 <= L.blocks.tags[a].size && b == a + HDR + n
    requires S == Split(L.blocks, a, n, false, true)
    ensures a in S.tags && S.tags[a].size == n && b in S.tags && a < b
    ensures !PrevFree(S, b) && Next(S, b) == Next(L.blocks, a) && Next(S, a) == b
    ensures NextFree(S, b) == NextFree(L.blocks, a)
    ensures NextFree(S, b) ==> Next(S, Next(S, b)) == Next(L.blocks, Next(L.blocks, a))
  {
    hide Split;
    SplitAt(L.blocks, a, n, false, true, a);
    SplitAt(L.blocks, a, n, false, true, b);
    SplitAt(L.blocks, a, n, false, true, Next(L.blocks, a));
    assert TileAt(L.blocks, a);
    assert Prev(S, b) == a;
  }

  lemma CutMerged(B: Blocks, a: nat, b: nat, S: Blocks, fl: seq<nat>, fl': seq<nat>)
    requires a in B.tags && b in S.tags && !PrevFree(S, b) && Next(S, b) == Next(B, a)
    requires NextFree(S, b) == NextFree(B, a) && MergedList(S, b, fl, fl')
    ensures CutList(B, a, b, fl, fl')
  {
  }

  /** With an empty freelist `wdrealloc` does nothing; to 0 bytes it frees. */
  lemma ReallocElse(L: Layout, p: nat)
    requires Live(L, p)
    ensures L.fl == [] ==> forall n {:trigger Realloc(L, p, n)} :: Realloc(L, p, n) == (L, 0)
    ensures L.fl != [] && L.blocks.tags[p - 12].size > 0 ==> Realloc(L, p, 0) == (Free(L, p), 0)
  {
  }

  // ----- wdrealloc that grows

  /** `t` is `s` without the addresses in `X`, in the same order. */
  ghost predicate Drops(s: seq<nat>, X: set<nat>, t: seq<nat>) {
    && Distinct(t) && (forall z :: z in t <==> z in s && z !in X)
    && forall i, j :: 0 <= i < j < |t| ==> Pos(s, t[i]) < Pos(s, t[j])
  }

  lemma PosCons(s: seq<nat>, z: nat)
    requires s != [] && Distinct(s) && z in s[1..]
    ensures Pos(s, z) == 1 + Pos(s[1..], z) && Pos(s, s[0]) == 0 && Distinct(s[1..])
  {
    var i :| 0 <= i < |s[1..]| && s[1..][i] == z;
    assert s[i + 1] == z;
  }

  lemma WithoutCons(s: seq<nat>, x: nat, y: nat)
    requires Without(s, x, y) != []
    ensures s != [] && Without(s, x, y) == (if s[0] == x || s[0] == y then [] else [s[0]]) + Without(s[1..], x, y)
  {
  }

  lemma WithoutAt(s: seq<nat>, x: nat, y: nat, t: seq<nat>, k: nat)
    requires Distinct(s) && t == Without(s, x, y) && k < |t|
    ensures t[k] in s
  {
    assert t[k] in t;
  }

  lemma {:induction false} WithoutOrder(s: seq<nat>, x: nat, y: nat, t: seq<nat>, i: nat, j: nat)
    requires Distinct(s) && t == Without(s, x, y) && i < j < |t|
    ensures Pos(s, t[i]) < Pos(s, t[j])
    decreases |s|
  {
    hide Pos, Distinct, Without;
    WithoutCons(s, x, y);
    var t1 := Without(s[1..], x, y);
    var d := if s[0] == x || s[0] == y then 0 else 1;
    assert t[j] == t1[j - d];
    DistinctTail(s);
    WithoutAt(s[1..], x, y, t1, j - d);
    PosCons(s, t[j]);
    if i >= d {
      assert t[i] == t1[i - d];
      WithoutAt(s[1..], x, y, t1, i - d);
      PosCons(s, t[i]);
      WithoutOrder(s[1..], x, y, t1, i - d, j - d);
    }
  }

  lemma DistinctTail(s: seq<nat>)
    requires s != [] && Distinct(s)
    ensures Distinct(s[1..])
  {
  }

  lemma WithoutDrops(s: seq<nat>, x: nat, y: nat)
    requires Distinct(s)
    ensures Drops(s, {x, y}, Without(s, x, y))
  {
    hide Pos;
    var t := Without(s, x, y);
    forall i, j | 0 <= i < j < |t| ensures Pos(s, t[i]) < Pos(s, t[j]) { WithoutOrder(s, x, y, t, i, j); }
  }

  lemma DropsOne(s: seq<nat>, x: nat, t: seq<nat>)
    requires 0 !in s && Drops(s, {x, 0}, t)
    ensures Drops(s, {x}, t)
  {
  }

  /**
    The block of `avail` bytes at `start`, made of block `a` and neighbours `X`, has been handed out: all of it, or `n`
    bytes if at least 16 are left over, which become a free block at the front of the freelist.
   */
  ghost predicate Placed(L: Layout, start: nat, avail: nat, X: set<nat>, n: nat, R: Layout) {
    && start in R.blocks.tags && !R.blocks.tags[start].free
    && if avail >= n + 16 then
         && R.blocks.tags[start].size == n
         && start + 12 + n in R.blocks.tags && R.blocks.tags[start + 12 + n].free
         && R.blocks.tags[start + 12 + n].size == avail - n - 12
         && R.fl != [] && R.fl[0] == start + 12 + n && Drops(L.fl, X, R.fl[1..])
       else R.blocks.tags[start].size == avail && Drops(L.fl, X, R.fl)
  }

  lemma GrowPlaced(L: Layout, a: nat, n: nat, c: Choice, X: set<nat>)
    requires Sound(L) && IsUsed(L.blocks, a) && c == Choose(L.blocks, a, n) && c.Here?
    requires X == if c.rem1 == 0 then {c.rem0} else {c.rem0, c.rem1}
    ensures Placed(L, c.start, c.avail, X, n, Grow(L, a, n).0) && Grow(L, a, n).1 == c.start + 12
  {
    hide Choose, Gather, Split, Drops, Tiled, BackTag, Without;
    ChosenTouch(L.blocks, a, n, c);
    GatherTagged(L, a, n, c);
    GatherAt(L, a, n, c, c.start);
    var G, b := Gather(L, c), c.start + 12 + n;
    GatherList(L, c);
    WithoutDrops(L.fl, c.rem0, c.rem1);
    if c.rem1 == 0 { DropsOne(L.fl, c.rem0, Without(L.fl, c.rem0, c.rem1)); }
    if c.avail >= n + 16 {
      SplitAt(G.blocks, c.start, n, false, true, c.start);
      SplitAt(G.blocks, c.start, n, false, true, b);
      assert ([b] + G.fl)[1..] == G.fl;
    }
  }

  lemma GatherList(L: Layout, c: Choice)
    requires c.Here? && c.start in L.blocks.tags
    ensures Gather(L, c).fl == Without(L.fl, c.rem0, c.rem1)
  {
  }

  /**
    A growing `wdrealloc`: the next block if that gives room, else the previous one, else both, and the block starts
    where the lowest of them does; else whatever `wdmalloc` finds.
   */
  lemma GrowOutcome(L: Layout, p: nat, n: nat, a: nat, s: nat)
    requires Sound(L) && Live(L, p) && L.fl != [] && a == p - 12 && s == L.blocks.tags[a].size && s < n
    ensures RoomNext(L.blocks, a, n) ==>
      && Realloc(L, p, n).1 == p
      && Placed(L, a, s + 12 + L.blocks.tags[Next(L.blocks, a)].size, {Next(L.blocks, a)}, n, Realloc(L, p, n).0)
    ensures !RoomNext(L.blocks, a, n) && RoomPrev(L.blocks, a, n) ==> var b := Prev(L.blocks, a);
      && Realloc(L, p, n).1 == b + 12
      && Placed(L, b, L.blocks.tags[b].size + 12 + s, {b}, n, Realloc(L, p, n).0)
    ensures !RoomNext(L.blocks, a, n) && !RoomPrev(L.blocks, a, n) && RoomBoth(L.blocks, a, n) ==>
      var b, c := Prev(L.blocks, a), Next(L.blocks, a);
      && Realloc(L, p, n).1 == b + 12
      && Placed(L, b, L.blocks.tags[b].size + 12 + s + 12 + L.blocks.tags[c].size, {b, c}, n, Realloc(L, p, n).0)
    ensures !RoomBeside(L.blocks, a, n) ==> Realloc(L, p, n).1 == Malloc(L, n).1
    ensures !RoomBeside(L.blocks, a, n) && Malloc(L, n).1 != 0 ==> Realloc(L, p, n).0 == Free(Malloc(L, n).0, p)
  {
    hide Choose, Placed, Gather, Settle, Malloc, Free, Sound;
    ChooseIs(L.blocks, a, n);
    var c := Choose(L.blocks, a, n);
    if c.Here? {
      NoZero(L);
      GrowPlaced(L, a, n, c, if c.rem1 == 0 then {c.rem0} else {c.rem0, c.rem1});
    }
  }

  lemma NoZero(L: Layout)
    requires Sound(L)
    ensures 0 !in L.blocks.tags
  {
    if 0 in L.blocks.tags {
      OutsideStart(L.blocks, 0);
      assert false;
    }
  }

  lemma OutsideStart(B: Blocks, x: nat)
    requires Tiled(B) && x in B.tags
    ensures B.start <= x
  {
    assert TileAt(B, x);
  }
}
