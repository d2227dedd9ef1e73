/** Free blocks merge: when no two neighbours are free, and what freeing undoes. */
module HeapMerging {
  import opened HeapLayout
  import opened HeapSafety

  /** Free neighbours occur at most around `a`. */
  ghost predicate NoFreePairBut(B: Blocks, a: nat) {
    forall x {:trigger NextFree(B, x)} :: IsFree(B, x) && x != a && Next(B, x) != a ==> !NextFree(B, x)
  }

  // ----- coalesce

  /** Where the block that `coalesce` forms around `a` starts and ends. */
  ghost function Low(B: Blocks, a: nat): int
    requires a in B.tags
  {
    if PrevFree(B, a) then Prev(B, a) else a
  }

  ghost function High(B: Blocks, a: nat): nat
    requires a in B.tags
  {
    if NextFree(B, a) then Next(B, Next(B, a)) else Next(B, a)
  }

  /** `coalesce` replaces the blocks between `Low` and `High` by one and leaves the others. */
  lemma CoalesceAt(L: Layout, a: nat, x: nat)
    requires SoundBut(L, a) && IsFree(L.blocks, a)
    ensures Low(L.blocks, a) in L.blocks.tags && Low(L.blocks, a) <= a < High(L.blocks, a)
    ensures x in Coalesce(L, a).blocks.tags <==> x in L.blocks.tags && !(Low(L.blocks, a) < x < High(L.blocks, a))
    ensures x in Coalesce(L, a).blocks.tags ==>
      && Coalesce(L, a).blocks.tags[x].free == L.blocks.tags[x].free
      && Next(Coalesce(L, a).blocks, x) == if x == Low(L.blocks, a) then High(L.blocks, a) else Next(L.blocks, x)
  {
    hide Fuse;
    var B := L.blocks;
    var n := Next(B, a);
    assert BackTag(B, a) && TileAt(B, a);
    if x in B.tags { assert TileAt(B, x); }
    if n in B.tags { assert TileAt(B, n); }
    if PrevFree(B, a) {
      var p := Prev(B, a);
      var F := Fuse(B, p);
      assert Next(B, p) == a && TileAt(B, p);
      FuseAt(B, p, x);
      FuseTiled(B, p);
      if NextFree(B, a) {
        FuseAt(B, p, p);
        FuseAt(B, p, n);
        assert Next(F, p) == n;
        FuseAt(F, p, x);
      }
    } else if NextFree(B, a) {
      FuseAt(B, a, x);
    }
  }

  lemma CoalesceNoFreePair(L: Layout, a: nat)
    requires SoundBut(L, a) && IsFree(L.blocks, a) && NoFreePairBut(L.blocks, a)
    ensures NoFreePair(Coalesce(L, a).blocks)
  {
    hide Coalesce;
    var B, C := L.blocks, Coalesce(L, a).blocks;
    assert BackTag(B, a) && TileAt(B, a);
    forall x | IsFree(C, x) ensures !NextFree(C, x) {
      CoalesceAt(L, a, x);
      CoalesceAt(L, a, Next(C, x));
      assert TileAt(B, x);
      if x == Low(B, a) {
        assert NextFree(B, a) ==> !NextFree(B, Next(B, a));
      } else if Next(B, x) in B.tags {
        assert x != a && BackTag(B, Next(B, x)) && TileAt(B, Prev(B, Next(B, x)));
        assert Next(B, x) != a ==> !NextFree(B, x);
      }
    }
  }

  // ----- Which operations keep free blocks apart

  lemma MallocNoFreePair(L: Layout, n: nat)
    requires Sound(L) && NoFreePair(L.blocks)
    ensures NoFreePair(Malloc(L, n).0.blocks)
  {
    hide Split;
    var k := BestFit(L, n, |L.fl|);
    if k >= 0 {
      var B, a, M := L.blocks, L.fl[k], Malloc(L, n).0.blocks;
      var s := B.tags[a].size - n - HDR;
      assert TileAt(B, a);
      forall x | IsFree(M, x) ensures !NextFree(M, x) {
        if s >= 0 {
          SplitAt(B, a, s, true, false, x);
          SplitAt(B, a, s, true, false, Next(M, x));
          assert x != a ==> Next(M, x) == Next(B, x) && TileAt(B, x);
        }
        assert !NextFree(B, x);
      }
    }
  }

  lemma FreeNoFreePair(L: Layout, p: nat)
    requires Sound(L) && NoFreePair(L.blocks) && (Live(L, p) || !(L.blocks.start + HDR <= p < L.blocks.end))
    ensures NoFreePair(Free(L, p).blocks)
  {
    if L.fl != [] && L.blocks.start + HDR <= p < L.blocks.end {
      var a := p - HDR;
      var M := Mark(L.blocks, a, true);
      MarkTagged(L.blocks, a, true);
      forall x | IsFree(M, x) && x != a && Next(M, x) != a ensures !NextFree(M, x) { assert !NextFree(L.blocks, x); }
      CoalesceNoFreePair(Layout(M, L.fl), a);
    }
  }

  lemma ShrinkNoFreePair(L: Layout, a: nat, n: nat)
    requires Sound(L) && NoFreePair(L.blocks) && IsUsed(L.blocks, a)
    ensures NoFreePair(Shrink(L, a, n).blocks)
  {
    hide Split, Coalesce, SoundBut;
    if L.blocks.tags[a].size >= n + SLACK {
      var B, S, b := L.blocks, Split(L.blocks, a, n, false, true), a + HDR + n;
      SplitSoundBut(L, a, n);
      SplitAt(B, a, n, false, true, b);
      assert TileAt(B, a);
      forall x | IsFree(S, x) && x != b && Next(S, x) != b ensures !NextFree(S, x) {
        SplitAt(B, a, n, false, true, x);
        SplitAt(B, a, n, false, true, Next(B, x));
        assert Next(S, x) == Next(B, x) && TileAt(B, x) && !NextFree(B, x);
      }
      CoalesceNoFreePair(Layout(S, L.fl), b);
    }
  }

  /** Growing down into the previous block while the next one is free too, with a surplus worth splitting off. */
  ghost predicate Strands(B: Blocks, a: nat, n: nat)
    requires a in B.tags
  {
    !RoomNext(B, a, n) && RoomPrev(B, a, n + 16) && NextFree(B, a)
  }

  /** After gathering, a free block is followed by a free one only where the gathered block is involved. */
  lemma GatherNext(L: Layout, a: nat, n: nat, c: Choice, x: nat)
    requires Sound(L) && IsUsed(L.blocks, a) && c == Choose(L.blocks, a, n) && c.Here? && x in Gather(L, c).blocks.tags
    ensures x in L.blocks.tags && Gather(L, c).blocks.tags[x].free == L.blocks.tags[x].free
    ensures Next(Gather(L, c).blocks, x) == if x == c.start then c.start + HDR + c.avail else Next(L.blocks, x)
    ensures x != c.start && IsFree(L.blocks, x) && NoFreePair(L.blocks) && NextFree(Gather(L, c).blocks, x) ==>
      Next(L.blocks, x) == c.start
  {
    hide Gather, Choose;
    GatherAt(L, a, n, c, x);
    GatherAt(L, a, n, c, Next(L.blocks, x));
    if IsFree(L.blocks, x) && NoFreePair(L.blocks) { assert !NextFree(L.blocks, x); }
  }

  /** The block after the gathered one is free exactly when the code left a free successor behind. */
  lemma GatherEnd(L: Layout, a: nat, n: nat, c: Choice)
    requires Sound(L) && NoFreePair(L.blocks) && IsUsed(L.blocks, a) && c == Choose(L.blocks, a, n) && c.Here?
    ensures NextFree(Gather(L, c).blocks, c.start) <==> c.start != a && c.rem1 == 0 && NextFree(L.blocks, a)
  {
    var B, G, e := L.blocks, Gather(L, c).blocks, c.start + HDR + c.avail;
    ChosenTouch(B, a, n, c);
    GatherAt(L, a, n, c, c.start);
    GatherAt(L, a, n, c, e);
    assert Next(G, c.start) == e && TileAt(B, a) && TileAt(B, c.start);
    if c.start == a || c.rem1 != 0 {
      var b := Next(B, a);
      assert e == Next(B, b) && TileAt(B, b) && !NextFree(B, b);
    } else {
      assert e == Next(B, a);
    }
  }

  lemma SettleNoFreePair(L: Layout, a: nat, n: nat, c: Choice, G: Layout)
    requires Sound(L) && NoFreePair(L.blocks) && IsUsed(L.blocks, a) && c == Choose(L.blocks, a, n) && c.Here?
    requires G == Gather(L, c) && Tagged(G.blocks) && G.blocks.tags[c.start].size == c.avail
    ensures NoFreePair(Settle(G, c.start, n).blocks) <==> !(c.avail >= n + SLACK && NextFree(G.blocks, c.start))
  {
    hide Gather, Choose, Split, Sound;
    var B, R, g, b := G.blocks, Settle(G, c.start, n).blocks, c.start, c.start + HDR + n;
    assert TileAt(B, g);
    if c.avail >= n + SLACK {
      SplitAt(B, g, n, false, true, b);
      SplitAt(B, g, n, false, true, Next(B, g));
      assert Next(R, b) == Next(B, g) && (NextFree(R, b) <==> NextFree(B, g));
      assert IsFree(R, b);
    }
    forall x | IsFree(R, x) && (c.avail >= n + SLACK ==> x != b) ensures !NextFree(R, x) {
      if c.avail >= n + SLACK {
        SplitAt(B, g, n, false, true, x);
        SplitAt(B, g, n, false, true, Next(R, x));
      }
      GatherNext(L, a, n, c, x);
      assert TileAt(B, x) && Next(R, x) == Next(B, x);
    }
  }

  /**
    A growing `wdrealloc` keeps free blocks apart unless it strands a surplus in front of a free block: it takes the
    previous block alone although the next one is free, and splits.
   */
  lemma GrowNoFreePair(L: Layout, a: nat, n: nat)
    requires Sound(L) && NoFreePair(L.blocks) && IsUsed(L.blocks, a)
    ensures NoFreePair(Grow(L, a, n).0.blocks) <==> !Strands(L.blocks, a, n)
  {
    hide Choose, Gather, Settle, Malloc, Free, SoundBut;
    var c := Choose(L.blocks, a, n);
    ChooseIs(L.blocks, a, n);
    if c.Here? {
      GatherTagged(L, a, n, c);
      GatherAt(L, a, n, c, c.start);
      ChosenTouch(L.blocks, a, n, c);
      GatherEnd(L, a, n, c);
      SettleNoFreePair(L, a, n, c, Gather(L, c));
    } else {
      MallocSound(L, n);
      MallocNoFreePair(L, n);
      MallocUsed(L, n, a);
      FreeNoFreePair(Malloc(L, n).0, a + HDR);
    }
  }

  ghost function StrandedLayout(): Layout {
    Layout(Blocks(100, 500, map[100 := Tag(0, 200, true), 312 := Tag(200, 20, false), 344 := Tag(20, 8, true),
                                364 := Tag(8, 124, false)]), [344, 100])
  }

  /** A sound heap without free neighbours on which growing a block to 100 bytes leaves two free neighbours. */
  lemma StrandedExample(L: Layout)
    requires L == StrandedLayout()
    ensures Sound(L) && NoFreePair(L.blocks) && Live(L, 324)
    ensures L.blocks.tags[312].size == 20 && !NoFreePair(Realloc(L, 324, 100).0.blocks)
  {
    var B := L.blocks;
    assert Next(B, 100) == 312 && Next(B, 312) == 344 && Next(B, 344) == 364 && Next(B, 364) == 500;
    assert forall a :: a in B.tags <==> a == 100 || a == 312 || a == 344 || a == 364;
    forall a | a in B.tags ensures TileAt(B, a) && BackTag(B, a) { }
    assert Prev(B, 312) == 100;
    assert Strands(B, 312, 100);
    GrowNoFreePair(L, 312, 100);
  }

  // ----- What freeing undoes

  lemma Single(s: seq<nat>, v: nat)
    requires Distinct(s) && forall x :: x in s <==> x == v
    ensures s == [v]
  {
    assert v in s;
    if |s| >= 2 {
      TwoDiffer(s);
      assert false;
    }
  }

  lemma TwoDiffer(s: seq<nat>)
    requires Distinct(s) && |s| >= 2
    ensures exists x, y :: x in s && y in s && x != y
  {
    assert s[0] in s && s[1] in s;
  }

  /** With nothing live and no free neighbours, the heap is the one free block it started as. */
  lemma AllFreed(L: Layout)
    requires Sound(L) && NoFreePair(L.blocks) && forall a :: a in L.blocks.tags ==> L.blocks.tags[a].free
    ensures L == Initial(L.blocks.start, L.blocks.end - L.blocks.start)
  {
    var B := L.blocks;
    assert TileAt(B, B.start) && BackTag(B, B.start) && !NextFree(B, B.start);
    forall b | b in B.tags ensures b == B.start { assert TileAt(B, b) && Next(B, b) > b; }
    assert B.tags == map[B.start := Tag(0, B.end - B.start - HDR, true)];
    assert IsFree(B, B.start);
    Single(L.fl, B.start);
  }

  /** Splitting a free block and fusing the parts again gives the block back. */
  lemma FuseSplit(B: Blocks, a: nat, s: nat, b: nat)
    requires Tagged(B) && IsFree(B, a) && s + HDR <= B.tags[a].size && b == a + HDR + s
    requires b in Split(B, a, s, true, false).tags && a in Mark(Split(B, a, s, true, false), b, true).tags
    ensures Fuse(Mark(Split(B, a, s, true, false), b, true), a) == B
  {
    hide Split, Fuse;
    var S := Split(B, a, s, true, false);
    var M := Mark(S, b, true);
    SplitTagged(B, a, s, true, false);
    MarkTagged(S, b, true);
    SplitAt(B, a, s, true, false, a);
    SplitAt(B, a, s, true, false, b);
    assert TileAt(B, a) && Next(M, a) == b && Next(M, b) == Next(B, a);
    var F := Fuse(M, a);
    forall x ensures (x in F.tags <==> x in B.tags) && (x in B.tags ==> F.tags[x] == B.tags[x]) {
      FuseAt(M, a, x);
      SplitAt(B, a, s, true, false, x);
      if x in B.tags && x == Next(B, a) { assert BackTag(B, x) && TileAt(B, Prev(B, x)); }
    }
    assert F.tags == B.tags;
  }

  /**
    Freeing what `wdmalloc` carved off restores layout and freelist exactly, unless 0 bytes were asked for and the block
    carved up is the last of the heap: then the pointer is the heap's end and `wdfree` changes nothing.
   */
  lemma FreeMallocSplit(L: Layout, n: nat, k: nat)
    requires Sound(L) && NoFreePair(L.blocks) && k < |L.fl| && k == BestFit(L, n, |L.fl|)
    requires n + HDR <= L.blocks.tags[L.fl[k]].size
    ensures var (M, r) := Malloc(L, n);
      if n == 0 && Next(L.blocks, L.fl[k]) == L.blocks.end then Free(M, r) == M != L else Free(M, r) == L
  {
    hide Split, Fuse;
    var B, a := L.blocks, L.fl[k];
    var s := B.tags[a].size - n - HDR;
    var b, S := a + HDR + s, Split(B, a, s, true, false);
    SplitAt(B, a, s, true, false, a);
    SplitAt(B, a, s, true, false, b);
    SplitAt(B, a, s, true, false, Next(B, a));
    assert TileAt(B, a) && !NextFree(B, a);
    var M := Mark(S, b, true);
    assert Prev(M, b) == a && Next(M, b) == Next(B, a) && PrevFree(M, b) && !NextFree(M, b);
    FuseSplit(B, a, s, b);
  }

  /**
    Freeing a whole block that `wdmalloc` took restores the blocks and moves this one to the front of the freelist,
    unless it was the only free block or has no bytes and is the last of the heap: then `wdfree` changes nothing.
   */
  lemma FreeMallocWhole(L: Layout, n: nat, k: nat)
    requires Sound(L) && NoFreePair(L.blocks) && k < |L.fl| && k == BestFit(L, n, |L.fl|)
    requires n + HDR > L.blocks.tags[L.fl[k]].size
    ensures var (M, r) := Malloc(L, n);
      if |L.fl| == 1 || L.fl[k] + HDR == L.blocks.end then Free(M, r) == M != L
      else Free(M, r) == Layout(L.blocks, [L.fl[k]] + RemoveAt(L.fl, k))
  {
    var B, a := L.blocks, L.fl[k];
    var M := Mark(B, a, false);
    WholeAlone(L, a);
    assert |RemoveAt(L.fl, k)| == |L.fl| - 1;
    assert M.tags[a].free != B.tags[a].free;
    if |L.fl| > 1 && a + HDR < B.end {
      assert Mark(M, a, true) == B;
      hide Mark;
      assert Free(Layout(M, RemoveAt(L.fl, k)), a + HDR) == Coalesce(Layout(B, RemoveAt(L.fl, k)), a);
    }
  }

  /** A free block of a heap without free neighbours has none. */
  lemma WholeAlone(L: Layout, a: nat)
    requires Sound(L) && NoFreePair(L.blocks) && IsFree(L.blocks, a)
    ensures !PrevFree(L.blocks, a) && !NextFree(L.blocks, a)
    ensures L.blocks.start + HDR <= a + HDR <= L.blocks.end
  {
    var B := L.blocks;
    assert TileAt(B, a) && BackTag(B, a) && !NextFree(B, a);
    if PrevFree(B, a) { assert NextFree(B, Prev(B, a)); }
  }

  // ----- Pointers that cannot be freed

  /**
    On every fresh heap with room for a second header, `wdmalloc(0)` returns the heap's end, and freeing that does
    nothing.
   */
  lemma UnfreeableExample(start: nat, size: nat)
    requires 0 < start && 24 <= size <= 32779
    ensures var (M, r) := Malloc(Initial(start, size), 0); r == start + size && Live(M, r) && Free(M, r) == M
  {
    var I := Initial(start, size);
    InitialSound(start, size);
    assert BestFit(I, 0, 1) == 0;
    MallocUsed(I, 0, start + size - HDR);
  }
}
