/** What the allocator's layouts guarantee beyond soundness: exact tiling, best fit, live pointers, merging. */
module HeapTheorems {
  import opened HeapLayout
  import opened HeapSafety

  // ----- Tiling

  /** Every byte of the heap from a header on belongs to some block. */
  lemma {:induction false} Covered(B: Blocks, a: nat, x: nat) returns (u: nat)
    requires Tiled(B) && a in B.tags && a <= x < B.end
    ensures u in B.tags && u <= x < Next(B, u)
    decreases B.end - a
  {
    assert TileAt(B, a);
    if x < Next(B, a) {
      u := a;
    } else {
      u := Covered(B, Next(B, a), x);
    }
  }

  /** The blocks tile the heap: every byte of the heap lies in exactly one block, and no other byte does. */
  lemma Tiles(L: Layout, x: nat)
    requires Sound(L)
    ensures L.blocks.start <= x < L.blocks.end <==> exists u :: u in L.blocks.tags && u <= x < Next(L.blocks, u)
    ensures forall u, v :: u in L.blocks.tags && v in L.blocks.tags ==>
      u <= x < Next(L.blocks, u) && v <= x < Next(L.blocks, v) ==> u == v
  {
    var B := L.blocks;
    if B.start <= x < B.end {
      var u := Covered(B, B.start, x);
    }
    forall u | u in B.tags && u <= x < Next(B, u) ensures B.start <= x < B.end { assert TileAt(B, u); }
    forall u, v | u in B.tags && v in B.tags && u <= x < Next(B, u) && v <= x < Next(B, v) ensures u == v {
      assert TileAt(B, u) && TileAt(B, v);
    }
  }

  /** Live payloads lie in the heap and are pairwise disjoint. */
  lemma LivePayloads(L: Layout, p: nat, q: nat)
    requires Sound(L) && Live(L, p) && Live(L, q)
    ensures L.blocks.start + HDR <= p && p + L.blocks.tags[p - HDR].size <= L.blocks.end
    ensures p != q ==> p + L.blocks.tags[p - HDR].size <= q - HDR || q + L.blocks.tags[q - HDR].size <= p - HDR
  {
    assert TileAt(L.blocks, p - HDR) && TileAt(L.blocks, q - HDR);
    assert Next(L.blocks, p - HDR) == p + L.blocks.tags[p - HDR].size;
    assert Next(L.blocks, q - HDR) == q + L.blocks.tags[q - HDR].size;
  }

  // ----- Best fit

  ghost predicate IsBestFit(L: Layout, n: nat, k: nat, m: nat)
    requires k < m <= |L.fl|
  {
    && Fits(L.blocks, L.fl[k], n)
    && forall j :: 0 <= j < m && Fits(L.blocks, L.fl[j], n) ==>
        && L.blocks.tags[L.fl[k]].size <= L.blocks.tags[L.fl[j]].size
        && (j < k ==> L.blocks.tags[L.fl[k]].size < L.blocks.tags[L.fl[j]].size)
  }

  lemma {:induction false} BestFitIs(L: Layout, n: nat, m: nat)
    requires m <= |L.fl|
    ensures BestFit(L, n, m) < 0 ==> forall j :: 0 <= j < m ==> !Fits(L.blocks, L.fl[j], n)
    ensures BestFit(L, n, m) >= 0 ==> IsBestFit(L, n, BestFit(L, n, m), m)
  {
    if m > 0 {
      BestFitIs(L, n, m - 1);
    }
  }

  /** `wdmalloc` fails exactly when no free block is large enough. */
  lemma MallocFails(L: Layout, n: nat)
    requires Sound(L)
    ensures Malloc(L, n).1 == 0 <==> forall a :: a in L.blocks.tags ==> !Fits(L.blocks, a, n)
  {
    BestFitIs(L, n, |L.fl|);
    var k := BestFit(L, n, |L.fl|);
    if k < 0 {
      forall a | a in L.blocks.tags ensures !Fits(L.blocks, a, n) {
        if IsFree(L.blocks, a) {
          assert a in L.fl;
        }
      }
    } else {
      assert L.fl[k] in L.blocks.tags;
    }
  }

  /**
    When it succeeds it takes its bytes from the smallest adequate free block, the earliest on the freelist
    among equals, and hands out between `n` and `n + 11` bytes.
   */
  lemma MallocBest(L: Layout, n: nat) returns (k: nat)
    requires Sound(L) && Malloc(L, n).1 != 0
    ensures k < |L.fl| && IsBestFit(L, n, k, |L.fl|)
    ensures var (M, r) := Malloc(L, n);
      && Live(M, r) && !Live(L, r)
      && n <= M.blocks.tags[r - HDR].size < n + HDR
      && L.fl[k] + HDR <= r && r + M.blocks.tags[r - HDR].size == Next(L.blocks, L.fl[k])
  {
    BestFitIs(L, n, |L.fl|);
    k := BestFit(L, n, |L.fl|);
    var r := Malloc(L, n).1;
    MallocSound(L, n);
    MallocUsed(L, n, r - HDR);
  }

  // ----- Which blocks are live after each operation

  /** Block `x` is used in `C` exactly when it is in `B`, and with the same size. */
  ghost predicate SameUsed(B: Blocks, C: Blocks, x: nat) {
    (IsUsed(C, x) <==> IsUsed(B, x)) && (IsUsed(B, x) ==> C.tags[x].size == B.tags[x].size)
  }

  lemma CoalesceUsed(L: Layout, a: nat, x: nat)
    requires SoundBut(L, a) && IsFree(L.blocks, a)
    ensures SameUsed(L.blocks, Coalesce(L, a).blocks, x)
  {
    hide Fuse;
    var B := L.blocks;
    assert BackTag(B, a);
    if PrevFree(B, a) {
      var p := Prev(B, a);
      var F := Fuse(B, p);
      assert Next(B, p) == a;
      FuseAt(B, p, x);
      FuseTiled(B, p);
      if NextFree(B, a) {
        FuseAt(B, p, p);
        FuseAt(B, p, Next(B, a));
        assert Next(F, p) == Next(B, a);
        FuseAt(F, p, x);
      }
    } else if NextFree(B, a) {
      FuseAt(B, a, x);
    }
  }

  /** `wdfree` takes effect unless the freelist is empty or the pointer is the very end of the heap. */
  ghost predicate Frees(L: Layout, p: nat) {
    L.fl != [] && p < L.blocks.end
  }

  lemma FreeUsed(L: Layout, p: nat, x: nat)
    requires Sound(L) && Live(L, p)
    ensures Frees(L, p) ==>
      && (IsUsed(Free(L, p).blocks, x) <==> IsUsed(L.blocks, x) && x != p - HDR)
      && (IsUsed(Free(L, p).blocks, x) ==> Free(L, p).blocks.tags[x].size == L.blocks.tags[x].size)
    ensures !Frees(L, p) ==> Free(L, p) == L
  {
    assert TileAt(L.blocks, p - HDR);
    if Frees(L, p) {
      var M := Layout(Mark(L.blocks, p - HDR, true), L.fl);
      MarkTagged(L.blocks, p - HDR, true);
      CoalesceUsed(M, p - HDR, x);
    }
  }

  lemma ShrinkUsed(L: Layout, a: nat, n: nat, x: nat)
    requires Sound(L) && IsUsed(L.blocks, a) && n <= L.blocks.tags[a].size
    ensures IsUsed(Shrink(L, a, n).blocks, x) <==> IsUsed(L.blocks, x)
    ensures IsUsed(L.blocks, x) && x != a ==> Shrink(L, a, n).blocks.tags[x].size == L.blocks.tags[x].size
    ensures n <= Shrink(L, a, n).blocks.tags[a].size <= n + 15
  {
    hide Split, Coalesce, SoundBut;
    if L.blocks.tags[a].size >= n + SLACK {
      var S := Split(L.blocks, a, n, false, true);
      SplitSoundBut(L, a, n);
      SplitAt(L.blocks, a, n, false, true, x);
      SplitAt(L.blocks, a, n, false, true, a);
      CoalesceUsed(Layout(S, L.fl), a + HDR + n, x);
      CoalesceUsed(Layout(S, L.fl), a + HDR + n, a);
    }
  }

  lemma SettleUsed(L: Layout, a: nat, n: nat, x: nat)
    requires Tagged(L.blocks) && a in L.blocks.tags && n <= L.blocks.tags[a].size
    ensures IsUsed(Settle(L, a, n).blocks, x) <==> IsUsed(L.blocks, x) || x == a
    ensures IsUsed(L.blocks, x) && x != a ==> Settle(L, a, n).blocks.tags[x].size == L.blocks.tags[x].size
    ensures n <= Settle(L, a, n).blocks.tags[a].size <= n + 15
  {
    if L.blocks.tags[a].size >= n + SLACK {
      SplitAt(L.blocks, a, n, false, true, x);
      SplitAt(L.blocks, a, n, false, true, a);
    }
  }

  /** A growing `wdrealloc` in place replaces the old block by one that may start earlier. */
  lemma GrowHereUsed(L: Layout, a: nat, n: nat, c: Choice, x: nat)
    requires Sound(L) && IsUsed(L.blocks, a) && c == Choose(L.blocks, a, n) && c.Here?
    ensures var R := Grow(L, a, n).0.blocks;
      && (IsUsed(R, x) <==> (IsUsed(L.blocks, x) && x != a) || x == c.start)
      && (IsUsed(R, x) && x != c.start ==> R.tags[x].size == L.blocks.tags[x].size)
      && n <= R.tags[c.start].size <= n + 15
  {
    hide Choose, Gather, Settle;
    ChosenTouch(L.blocks, a, n, c);
    GatherSound(L, a, n, c);
    GatherAt(L, a, n, c, x);
    GatherAt(L, a, n, c, c.start);
    SettleUsed(Gather(L, c), c.start, n, x);
  }

  /**
    Growing elsewhere leaks the old block exactly when the new one emptied the freelist or the old pointer is the
    heap's end.
   */
  lemma GrowElsewhereUsed(L: Layout, a: nat, n: nat, x: nat)
    requires Sound(L) && IsUsed(L.blocks, a) && Choose(L.blocks, a, n).Elsewhere? && Malloc(L, n).1 != 0
    ensures var (M, r) := Malloc(L, n); var R := Grow(L, a, n).0.blocks;
      && (IsUsed(R, x) <==> (IsUsed(L.blocks, x) && (x == a ==> !Frees(M, a + HDR))) || x + HDR == r)
      && (IsUsed(R, x) && x + HDR != r ==> R.tags[x].size == L.blocks.tags[x].size)
      && (x + HDR == r && x != a ==> n <= R.tags[x].size <= n + 15)
  {
    hide Choose, Malloc, Free;
    MallocSound(L, n);
    MallocUsed(L, n, x);
    MallocUsed(L, n, a);
    FreeUsed(Malloc(L, n).0, a + HDR, x);
  }
}
