/** Every allocator operation keeps the heap sound, for every argument. */
module HeapSafety {
  import opened HeapLayout

  // ----- Fuse

  /** What `Fuse` leaves at each address. */
  lemma FuseAt(B: Blocks, a: nat, x: nat)
    requires Tiled(B) && a in B.tags && Next(B, a) in B.tags
    ensures var F := Fuse(B, a); var b := Next(B, a);
      && (x in F.tags <==> x in B.tags && x != b)
      && a != b && Next(B, b) != a && Next(B, b) != b
      && (x in B.tags && x != b ==>
          && F.tags[x].free == B.tags[x].free
          && F.tags[x].size == (if x == a then B.tags[a].size + HDR + B.tags[b].size else B.tags[x].size)
          && F.tags[x].prev == (if x == Next(B, b) then B.tags[a].size + HDR + B.tags[b].size else B.tags[x].prev))
  {
  }

  lemma FuseTileAt(B: Blocks, a: nat, x: nat)
    requires Tiled(B) && a in B.tags && Next(B, a) in B.tags
    requires x in Fuse(B, a).tags
    ensures TileAt(Fuse(B, a), x)
  {
    var F, b := Fuse(B, a), Next(B, a);
    FuseAt(B, a, x);
    assert TileAt(B, x) && TileAt(B, b);
    assert Next(F, x) == if x == a then Next(B, b) else Next(B, x);
    FuseAt(B, a, Next(F, x));
    forall y | y in F.tags && x < y ensures Next(F, x) <= y { FuseAt(B, a, y); }
  }

  lemma FuseBackAt(B: Blocks, a: nat, x: nat)
    requires Tiled(B) && a in B.tags && Next(B, a) in B.tags
    requires x in Fuse(B, a).tags
    requires x == Next(B, Next(B, a)) || BackTag(B, x)
    ensures BackTag(Fuse(B, a), x)
  {
    FuseAt(B, a, x);
    if x == Next(B, Next(B, a)) {
      FuseAt(B, a, a);
    } else if x != B.start {
      var p := Prev(B, x);
      assert Next(B, p) == x;
      FuseAt(B, a, p);
    }
  }

  lemma FuseTiled(B: Blocks, a: nat)
    requires Tiled(B) && a in B.tags && Next(B, a) in B.tags
    ensures Tiled(Fuse(B, a))
  {
    FuseAt(B, a, B.start);
    forall x | x in Fuse(B, a).tags ensures TileAt(Fuse(B, a), x) { FuseTileAt(B, a, x); }
  }

  lemma FuseTagged(B: Blocks, a: nat)
    requires Tagged(B) && a in B.tags && Next(B, a) in B.tags
    ensures Tagged(Fuse(B, a))
  {
    var F := Fuse(B, a);
    FuseTiled(B, a);
    forall x | x in F.tags ensures BackTag(F, x) {
      FuseAt(B, a, x);
      FuseBackAt(B, a, x);
    }
  }

  // ----- Split

  lemma SplitAt(B: Blocks, a: nat, s: nat, low: bool, high: bool, x: nat)
    requires Tiled(B) && a in B.tags && s + HDR <= B.tags[a].size
    ensures var S := Split(B, a, s, low, high); var b := a + HDR + s; var r := B.tags[a].size - s - HDR;
      && b !in B.tags && Next(B, a) == b + HDR + r
      && (x in S.tags <==> x in B.tags || x == b)
      && (x in S.tags ==>
          && S.tags[x].free == (if x == a then low else if x == b then high else B.tags[x].free)
          && S.tags[x].size == (if x == a then s else if x == b then r else B.tags[x].size)
          && S.tags[x].prev == (if x == b then s else if x == Next(B, a) then r else B.tags[x].prev))
  {
    assert TileAt(B, a);
  }

  lemma SplitTileAt(B: Blocks, a: nat, s: nat, low: bool, high: bool, x: nat)
    requires Tiled(B) && a in B.tags && s + HDR <= B.tags[a].size
    requires x in Split(B, a, s, low, high).tags
    ensures TileAt(Split(B, a, s, low, high), x)
  {
    var S, b := Split(B, a, s, low, high), a + HDR + s;
    SplitAt(B, a, s, low, high, x);
    assert TileAt(B, a);
    if x != b { assert TileAt(B, x); }
    assert Next(S, x) == if x == a then b else if x == b then Next(B, a) else Next(B, x);
    SplitAt(B, a, s, low, high, Next(S, x));
    forall y | y in S.tags && x < y ensures Next(S, x) <= y { SplitAt(B, a, s, low, high, y); }
  }

  lemma SplitBackAt(B: Blocks, a: nat, s: nat, low: bool, high: bool, x: nat)
    requires Tagged(B) && a in B.tags && s + HDR <= B.tags[a].size
    requires x in Split(B, a, s, low, high).tags
    ensures BackTag(Split(B, a, s, low, high), x)
  {
    var b := a + HDR + s;
    SplitAt(B, a, s, low, high, x);
    SplitAt(B, a, s, low, high, a);
    SplitAt(B, a, s, low, high, b);
    if x != b && x != Next(B, a) {
      assert BackTag(B, x);
      if x != B.start {
        assert Next(B, Prev(B, x)) == x;
        SplitAt(B, a, s, low, high, Prev(B, x));
      }
    }
  }

  lemma SplitTagged(B: Blocks, a: nat, s: nat, low: bool, high: bool)
    requires Tagged(B) && a in B.tags && s + HDR <= B.tags[a].size
    ensures Tagged(Split(B, a, s, low, high))
  {
    var S := Split(B, a, s, low, high);
    SplitAt(B, a, s, low, high, B.start);
    forall x | x in S.tags ensures TileAt(S, x) && BackTag(S, x) {
      SplitTileAt(B, a, s, low, high, x);
      SplitBackAt(B, a, s, low, high, x);
    }
  }

  lemma MarkTagged(B: Blocks, a: nat, free: bool)
    requires Tagged(B) && a in B.tags
    ensures Tagged(Mark(B, a, free))
  {
    var M := Mark(B, a, free);
    forall x | x in M.tags ensures TileAt(M, x) && BackTag(M, x) {
      assert TileAt(B, x) && BackTag(B, x) && Next(M, x) == Next(B, x);
    }
  }

  // ----- The operations

  /** Sound, except that block `x`, free or not, is kept off the freelist. */
  ghost predicate SoundBut(L: Layout, x: nat) {
    && Measured(L.blocks)
    && Tagged(L.blocks)
    && Distinct(L.fl)
    && forall y :: y in L.fl <==> IsFree(L.blocks, y) && y != x
  }

  lemma TakenOut(s: seq<nat>, k: nat)
    requires Distinct(s) && k < |s|
    ensures Distinct(RemoveAt(s, k)) && forall y :: y in RemoveAt(s, k) <==> y in s && y != s[k]
  {
    assert s == s[..k] + [s[k]] + s[k + 1..];
  }

  lemma MallocSound(L: Layout, n: nat)
    requires Sound(L)
    ensures Sound(Malloc(L, n).0)
    ensures Malloc(L, n).0.blocks.start == L.blocks.start && Malloc(L, n).0.blocks.end == L.blocks.end
    ensures if Malloc(L, n).1 == 0 then Malloc(L, n).0 == L else HDR <= Malloc(L, n).1
  {
    var k := BestFit(L, n, |L.fl|);
    if k >= 0 {
      var B, a := L.blocks, L.fl[k];
      var s := B.tags[a].size - n - HDR;
      if s >= 0 {
        SplitTagged(B, a, s, true, false);
        forall x ensures x in L.fl <==> IsFree(Split(B, a, s, true, false), x) { SplitAt(B, a, s, true, false, x); }
      } else {
        MarkTagged(B, a, false);
        TakenOut(L.fl, k);
      }
    }
  }

  /** `coalesce` puts the one unlisted free block back. */
  lemma CoalesceSound(L: Layout, a: nat)
    requires SoundBut(L, a) && IsFree(L.blocks, a)
    ensures Sound(Coalesce(L, a))
  {
    var B, C := L.blocks, Coalesce(L, a);
    assert BackTag(B, a);
    if PrevFree(B, a) {
      var p := Prev(B, a);
      var F := Fuse(B, p);
      assert Next(B, p) == a;
      FuseTagged(B, p);
      forall x ensures IsFree(F, x) <==> x in L.fl { FuseAt(B, p, x); }
      if NextFree(B, a) {
        FuseAt(B, p, p);
        assert Next(F, p) == Next(B, a);
        FuseAt(B, p, Next(B, a));
        FuseTagged(F, p);
        forall x ensures IsFree(C.blocks, x) <==> x in C.fl { FuseAt(F, p, x); }
      }
    } else if NextFree(B, a) {
      FuseTagged(B, a);
      forall x ensures IsFree(C.blocks, x) <==> x in C.fl { FuseAt(B, a, x); }
    }
  }

  lemma FreeSound(L: Layout, p: nat)
    requires Sound(L) && (Live(L, p) || !(L.blocks.start + HDR <= p < L.blocks.end))
    ensures Sound(Free(L, p))
  {
    if L.fl != [] && L.blocks.start + HDR <= p < L.blocks.end {
      MarkTagged(L.blocks, p - HDR, true);
      CoalesceSound(Layout(Mark(L.blocks, p - HDR, true), L.fl), p - HDR);
    }
  }

  /** The headers that disappear when the chosen neighbours become one block. */
  ghost function Gone(a: nat, c: Choice): set<nat>
    requires c.Here?
  {
    if c.rem1 != 0 then {a, c.rem1} else if c.start == a then {c.rem0} else {a}
  }

  /** What gathering leaves at each address; the old block lies inside the new one. */
  ghost predicate Gathered(B: Blocks, a: nat, c: Choice, G: Blocks)
    requires c.Here? && a in B.tags
  {
    && c.start in B.tags && c.start !in Gone(a, c) && (a == c.start || a in Gone(a, c))
    && c.start <= a && Next(B, a) <= c.start + HDR + c.avail
    && (forall x :: x in Gone(a, c) ==> c.start < x < c.start + HDR + c.avail)
    && G.start == B.start && G.end == B.end && G.tags.Keys == B.tags.Keys - Gone(a, c)
    && forall x {:trigger G.tags[x]} :: x in G.tags ==> G.tags[x] == GatheredTag(B, c, x)
  }

  /** The scenarios in the order in which `wdrealloc` tries them. */
  lemma ChooseIs(B: Blocks, a: nat, n: nat)
    requires a in B.tags
    ensures RoomNext(B, a, n) ==>
      Choose(B, a, n) == Here(a, B.tags[a].size + 12 + B.tags[Next(B, a)].size, Next(B, a), 0)
    ensures !RoomNext(B, a, n) && RoomPrev(B, a, n) ==>
      Choose(B, a, n) == Here(Prev(B, a), B.tags[Prev(B, a)].size + 12 + B.tags[a].size, Prev(B, a), 0)
    ensures !RoomNext(B, a, n) && !RoomPrev(B, a, n) && RoomBoth(B, a, n) ==>
      Choose(B, a, n) == Here(Prev(B, a), B.tags[Prev(B, a)].size + 12 + B.tags[a].size + 12 + B.tags[Next(B, a)].size,
                              Prev(B, a), Next(B, a))
    ensures Choose(B, a, n).Elsewhere? <==> !RoomBeside(B, a, n)
  {
  }

  /** The two or three neighbours that are chosen touch each other. */
  lemma ChosenTouch(B: Blocks, a: nat, n: nat, c: Choice)
    requires Tagged(B) && IsUsed(B, a) && 0 < B.start && c == Choose(B, a, n) && c.Here?
    ensures c.start in B.tags && Next(B, c.start) in B.tags && c.start <= a < Next(B, a) && 0 !in B.tags
    ensures if c.start == a then c.rem0 == Next(B, a)
      else c.rem0 == c.start && Next(B, c.start) == a && IsFree(B, c.start)
    ensures c.rem1 != 0 ==> c.start != a && c.rem1 == Next(B, a) && IsFree(B, c.rem1)
    ensures c.start == a ==> c.rem1 == 0 && IsFree(B, c.rem0)
  {
    assert BackTag(B, a) && TileAt(B, a) && (0 in B.tags ==> TileAt(B, 0));
    assert TileAt(B, c.start);
  }

  ghost function GatheredTag(B: Blocks, c: Choice, x: nat): Tag
    requires c.Here? && x in B.tags
  {
    Tag(if x == c.start + HDR + c.avail then c.avail else B.tags[x].prev,
        if x == c.start then c.avail else B.tags[x].size, B.tags[x].free)
  }

  lemma GatherAt(L: Layout, a: nat, n: nat, c: Choice, x: nat)
    requires Tagged(L.blocks) && IsUsed(L.blocks, a) && 0 < L.blocks.start && c == Choose(L.blocks, a, n) && c.Here?
    ensures x in Gather(L, c).blocks.tags <==> x in L.blocks.tags && x !in Gone(a, c)
    ensures x in Gather(L, c).blocks.tags ==> Gather(L, c).blocks.tags[x] == GatheredTag(L.blocks, c, x)
  {
    var B, g := L.blocks, c.start;
    ChosenTouch(B, a, n, c);
    FuseAt(B, g, x);
    if c.rem1 != 0 {
      var F := Fuse(B, g);
      FuseTiled(B, g);
      FuseAt(B, g, g);
      FuseAt(B, g, c.rem1);
      assert Next(F, g) == c.rem1;
      FuseAt(F, g, x);
    }
  }

  lemma GatherTagged(L: Layout, a: nat, n: nat, c: Choice)
    requires Tagged(L.blocks) && IsUsed(L.blocks, a) && 0 < L.blocks.start && c == Choose(L.blocks, a, n) && c.Here?
    ensures Tagged(Gather(L, c).blocks)
  {
    var B, g := L.blocks, c.start;
    ChosenTouch(B, a, n, c);
    FuseTagged(B, g);
    if c.rem1 != 0 {
      FuseAt(B, g, g);
      FuseAt(B, g, c.rem1);
      FuseTagged(Fuse(B, g), g);
    }
  }

  lemma GatherSound(L: Layout, a: nat, n: nat, c: Choice)
    requires Sound(L) && IsUsed(L.blocks, a) && c == Choose(L.blocks, a, n) && c.Here?
    ensures Gathered(L.blocks, a, c, Gather(L, c).blocks)
    ensures SoundBut(Gather(L, c), c.start)
  {
    var B, G := L.blocks, Gather(L, c);
    ChosenTouch(B, a, n, c);
    GatherTagged(L, a, n, c);
    forall x
      ensures x in G.blocks.tags <==> x in B.tags && x !in Gone(a, c)
      ensures x in G.blocks.tags ==> G.blocks.tags[x] == GatheredTag(B, c, x)
    {
      GatherAt(L, a, n, c, x);
    }
    assert TileAt(B, a) && TileAt(B, c.start);
    forall y ensures y in G.fl <==> IsFree(G.blocks, y) && y != c.start { GatherAt(L, a, n, c, y); }
  }

  lemma SettleSound(L: Layout, a: nat, n: nat)
    requires SoundBut(L, a) && a in L.blocks.tags
    ensures Sound(Settle(L, a, n))
  {
    var B, b := L.blocks, a + HDR + n;
    if B.tags[a].size >= n + SLACK {
      var S := Split(B, a, n, false, true);
      SplitTagged(B, a, n, false, true);
      SplitAt(B, a, n, false, true, b);
      assert !IsFree(B, b);
      forall x ensures IsFree(S, x) <==> x == b || x in L.fl { SplitAt(B, a, n, false, true, x); }
    } else {
      MarkTagged(B, a, false);
    }
  }

  lemma SplitSoundBut(L: Layout, a: nat, n: nat)
    requires Sound(L) && IsUsed(L.blocks, a) && n + HDR <= L.blocks.tags[a].size
    ensures var S := Split(L.blocks, a, n, false, true); var b := a + HDR + n;
      SoundBut(Layout(S, L.fl), b) && IsFree(S, b)
  {
    var B, b := L.blocks, a + HDR + n;
    var S := Split(B, a, n, false, true);
    SplitTagged(B, a, n, false, true);
    SplitAt(B, a, n, false, true, b);
    assert !IsFree(B, b);
    forall x ensures x in L.fl <==> IsFree(S, x) && x != b { SplitAt(B, a, n, false, true, x); }
  }

  lemma ShrinkSound(L: Layout, a: nat, n: nat)
    requires Sound(L) && IsUsed(L.blocks, a)
    ensures Sound(Shrink(L, a, n))
  {
    hide Split, Coalesce, SoundBut, Tiled, Listed;
    var B, b := L.blocks, a + HDR + n;
    if B.tags[a].size >= n + SLACK {
      SplitSoundBut(L, a, n);
      CoalesceSound(Layout(Split(B, a, n, false, true), L.fl), b);
    }
  }

  /** `wdmalloc` keeps every live block where it is and adds the one it returns. */
  lemma MallocUsed(L: Layout, n: nat, x: nat)
    requires Sound(L)
    ensures var (M, r) := Malloc(L, n);
      && (IsUsed(M.blocks, x) <==> IsUsed(L.blocks, x) || x + HDR == r)
      && (IsUsed(L.blocks, x) ==> x + HDR != r && M.blocks.tags[x].size == L.blocks.tags[x].size)
      && (x + HDR == r ==> n <= M.blocks.tags[x].size < n + HDR)
  {
    var k := BestFit(L, n, |L.fl|);
    if k >= 0 {
      var B, a := L.blocks, L.fl[k];
      var s := B.tags[a].size - n - HDR;
      if s >= 0 {
        SplitAt(B, a, s, true, false, x);
      }
    }
  }

  /** A growing `wdrealloc` that returns NULL changes nothing. */
  lemma GrowNull(L: Layout, a: nat, n: nat)
    requires Sound(L) && IsUsed(L.blocks, a)
    ensures Grow(L, a, n).1 == 0 ==> Grow(L, a, n).0 == L
  {
  }

  lemma ReallocSound(L: Layout, p: nat, n: nat)
    requires Sound(L) && (p == 0 || Live(L, p))
    ensures Sound(Realloc(L, p, n).0)
  {
    hide Malloc, Free, Shrink, Gather, Settle, Choose, Tiled, Listed, SoundBut;
    MallocSound(L, n);
    if L.fl != [] && p != 0 {
      var a := p - HDR;
      if n > L.blocks.tags[a].size {
        var c := Choose(L.blocks, a, n);
        if c.Here? {
          GatherSound(L, a, n, c);
          SettleSound(Gather(L, c), c.start, n);
        } else {
          MallocUsed(L, n, a);
          FreeSound(Malloc(L, n).0, p);
        }
      } else {
        FreeSound(L, p);
        ShrinkSound(L, a, n);
      }
    }
  }

  lemma InitialSound(start: nat, size: nat)
    requires 0 < start && 12 < size <= 32779
    ensures Sound(Initial(start, size)) && NoFreePair(Initial(start, size).blocks)
  {
    var B := Initial(start, size).blocks;
    assert Next(B, start) == B.end && TileAt(B, start);
    assert forall a :: a in B.tags ==> a == start;
  }
}
