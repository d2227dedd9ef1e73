/** The allocator as its clients see it: a map from live blocks to the bytes they own. */
module HeapContents {
  import opened Bytes
  import opened HeapLayout
  import opened HeapMemory
  import opened HeapSafety
  import opened HeapTheorems
  import opened HeapHeaders
  import opened Wdmalloc

  ghost function Payload(B: Blocks, m: seq<byte>, u: nat): seq<byte>
    requires u in B.tags
  {
    if Next(B, u) <= |m| then m[u + HDR..Next(B, u)] else []
  }

  /** What each live block owns; the client's pointer is the key plus 12. */
  ghost function Contents(B: Blocks, m: seq<byte>): map<nat, seq<byte>> {
    map u | u in B.tags && !B.tags[u].free :: Payload(B, m, u)
  }

  /** A block that keeps its size and is not in `X` keeps its contents. */
  lemma PayloadKept(B: Blocks, m: seq<byte>, R: Blocks, m': seq<byte>, X: set<nat>, u: nat)
    requires KeepsPayloads(m, m', B, X) && IsUsed(B, u) && u in R.tags && u !in X && R.tags[u].size == B.tags[u].size
    ensures Payload(R, m', u) == Payload(B, m, u)
  {
    if Next(B, u) <= |m| {
      SameSlice(m', m, u + HDR, Next(B, u));
    }
  }

  lemma PayloadSize(L: Layout, m: seq<byte>, u: nat)
    requires Sound(L) && L.blocks.end <= |m| && u in L.blocks.tags
    ensures |Payload(L.blocks, m, u)| == L.blocks.tags[u].size
  {
    assert TileAt(L.blocks, u);
  }

  lemma MallocContentsAt(L: Layout, n: nat, r: nat, R: Layout, m: seq<byte>, m': seq<byte>, u: nat)
    requires Sound(L) && (R, r) == HeapLayout.Malloc(L, n) && KeepsPayloads(m, m', L.blocks, {})
    ensures u in Contents(R.blocks, m') <==> u in Contents(L.blocks, m) || u + HDR == r
    ensures u in Contents(L.blocks, m) ==> u + HDR != r && Contents(R.blocks, m')[u] == Contents(L.blocks, m)[u]
  {
    hide HeapLayout.Malloc, KeepsPayloads, Sound, Payload;
    MallocUsed(L, n, u);
    if IsUsed(L.blocks, u) { PayloadKept(L.blocks, m, R.blocks, m', {}, u); }
  }

  lemma MallocCapacity(L: Layout, n: nat, r: nat, R: Layout, m: seq<byte>)
    requires Sound(L) && L.blocks.end <= |m| && (R, r) == HeapLayout.Malloc(L, n) && r != 0
    ensures HDR <= r && r - HDR in Contents(R.blocks, m) && n <= |Contents(R.blocks, m)[r - HDR]| < n + HDR
  {
    hide HeapLayout.Malloc, Sound, Payload;
    MallocSound(L, n);
    MallocUsed(L, n, r - HDR);
    PayloadSize(R, m, r - HDR);
  }

  lemma OneMore(C: map<nat, seq<byte>>, C': map<nat, seq<byte>>, k: nat)
    requires forall u :: (u in C' <==> u in C || u == k) && (u in C ==> u != k && C'[u] == C[u])
    ensures C' - {k} == C
  {
  }

  /** `wdmalloc` adds one pointer with `n` to `n + 11` bytes, or changes nothing. */
  lemma MallocContents(L: Layout, n: nat, r: nat, R: Layout, m: seq<byte>, m': seq<byte>)
    requires Sound(L) && L.blocks.end <= |m| && (R, r) == HeapLayout.Malloc(L, n) && KeepsPayloads(m, m', L.blocks, {})
    ensures r == 0 ==> Contents(R.blocks, m') == Contents(L.blocks, m)
    ensures r != 0 ==> HDR <= r && r - HDR !in Contents(L.blocks, m) && r - HDR in Contents(R.blocks, m')
    ensures r != 0 ==>
      Contents(R.blocks, m') - {r - HDR} == Contents(L.blocks, m) && n <= |Contents(R.blocks, m')[r - HDR]| < n + HDR
  {
    assert |m'| == |m|;
    hide HeapLayout.Malloc, KeepsPayloads, Sound, Contents;
    var C, C' := Contents(L.blocks, m), Contents(R.blocks, m');
    if r == 0 {
      forall u ensures (u in C' <==> u in C) && (u in C ==> C'[u] == C[u]) { MallocContentsAt(L, n, r, R, m, m', u); }
    } else {
      MallocCapacity(L, n, r, R, m');
      forall u ensures (u in C' <==> u in C || u == r - HDR) && (u in C ==> u != r - HDR && C'[u] == C[u]) {
        MallocContentsAt(L, n, r, R, m, m', u);
      }
      OneMore(C, C', r - HDR);
    }
  }

  /** `wdfree` takes the pointer out, if it takes effect. */
  lemma FreeContents(L: Layout, p: nat, m: seq<byte>, m': seq<byte>)
    requires Sound(L) && Live(L, p) && KeepsPayloads(m, m', L.blocks, if Frees(L, p) then {p - HDR} else {})
    ensures Contents(HeapLayout.Free(L, p).blocks, m') ==
      if Frees(L, p) then Contents(L.blocks, m) - {p - HDR} else Contents(L.blocks, m)
  {
    hide HeapLayout.Free, KeepsPayloads, Sound, Payload;
    var R := HeapLayout.Free(L, p);
    var C, C' := Contents(L.blocks, m), Contents(R.blocks, m');
    forall u: nat ensures (u in C' <==> u in C && (Frees(L, p) ==> u != p - HDR)) && (u in C' ==> C'[u] == C[u]) {
      FreeUsed(L, p, u);
      if u in C' { PayloadKept(L.blocks, m, R.blocks, m', if Frees(L, p) then {p - HDR} else {}, u); }
    }
  }

  /** The old block outlives a `wdrealloc` that has moved its contents, because `wdfree` ignores it. */
  ghost predicate Leaks(L: Layout, p: nat, n: nat)
    requires Live(L, p)
  {
    && n > L.blocks.tags[p - HDR].size && Choose(L.blocks, p - HDR, n).Elsewhere? && HeapLayout.Malloc(L, n).1 != 0
    && !Frees(HeapLayout.Malloc(L, n).0, p)
  }

  /**
    When that is, in terms of the heap before the call: no neighbour has room, some other free block does,
    and either the old pointer is the heap's end or the only free block is too small to be split.
   */
  lemma LeaksIs(L: Layout, p: nat, n: nat)
    requires Sound(L) && Live(L, p)
    ensures Leaks(L, p, n) <==>
      && n > L.blocks.tags[p - HDR].size && !RoomBeside(L.blocks, p - HDR, n)
      && (exists a :: a in L.blocks.tags && Fits(L.blocks, a, n))
      && (p == L.blocks.end || (|L.fl| == 1 && L.blocks.tags[L.fl[0]].size < n + 12))
  {
    hide Choose, RoomBeside, HeapLayout.Malloc, Sound;
    ChooseIs(L.blocks, p - HDR, n);
    MallocFails(L, n);
    MallocSound(L, n);
    LivePayloads(L, p, p);
    if HeapLayout.Malloc(L, n).1 != 0 { MallocEmpties(L, n); }
  }

  /** `wdmalloc` uses up the freelist exactly when it has one block, too small to be split. */
  lemma MallocEmpties(L: Layout, n: nat)
    requires Sound(L) && HeapLayout.Malloc(L, n).1 != 0
    ensures L.fl != [] && L.fl[0] in L.blocks.tags
    ensures HeapLayout.Malloc(L, n).0.fl == [] <==> |L.fl| == 1 && L.blocks.tags[L.fl[0]].size < n + HDR
  {
    hide Split, Mark, Tiled, BackTag;
    var k := BestFit(L, n, |L.fl|);
    assert L.fl[0] in L.fl;
  }

  ghost function LeakLayout(): Layout {
    Layout(Blocks(100, 204, map[100 := Tag(0, 20, false), 132 := Tag(20, 8, false), 152 := Tag(8, 40, true)]), [152])
  }

  /** A heap on which growing a block to 40 bytes moves it into the only free block and leaks the old one. */
  lemma LeakExample(L: Layout)
    requires L == LeakLayout()
    ensures Sound(L) && Live(L, 112) && L.blocks.tags[100].size == 20 && Leaks(L, 112, 40)
  {
    var B := L.blocks;
    assert Next(B, 100) == 132 && Next(B, 132) == 152 && Next(B, 152) == 204;
    assert forall a :: a in B.tags <==> a == 100 || a == 132 || a == 152;
    forall a | a in B.tags ensures TileAt(B, a) && BackTag(B, a) { }
    assert Fits(B, 152, 40);
    LeaksIs(L, 112, 40);
  }

  /** Which blocks are live after a `wdrealloc` that returns a pointer. */
  lemma ReallocUsed(L: Layout, p: nat, n: nat, r: nat, R: Layout, x: nat)
    requires Sound(L) && Live(L, p) && (R, r) == HeapLayout.Realloc(L, p, n) && r != 0
    ensures IsUsed(R.blocks, x) <==> x + HDR == r || (IsUsed(L.blocks, x) && (x + HDR == p ==> Leaks(L, p, n)))
    ensures IsUsed(R.blocks, x) && x + HDR != r ==> R.blocks.tags[x].size == L.blocks.tags[x].size
    ensures x + HDR == r ==> n <= R.blocks.tags[x].size <= n + 15 && (x + HDR != p ==> !IsUsed(L.blocks, x))
  {
    hide Choose, Gather, Settle, HeapLayout.Malloc, HeapLayout.Free, Shrink, Tiled, Listed, BackTag;
    var a := p - HDR;
    if n < L.blocks.tags[a].size {
      ShrinkUsed(L, a, n, x);
    } else if n > L.blocks.tags[a].size {
      var c := Choose(L.blocks, a, n);
      if c.Here? {
        ChosenTouch(L.blocks, a, n, c);
        GrowHereUsed(L, a, n, c, x);
      } else {
        MallocUsed(L, n, x);
        MallocUsed(L, n, a);
        GrowElsewhereUsed(L, a, n, x);
      }
    }
  }

  lemma ReallocContentsAt(L: Layout, p: nat, n: nat, r: nat, R: Layout, m: seq<byte>, m': seq<byte>, u: nat)
    requires Sound(L) && Live(L, p) && (R, r) == HeapLayout.Realloc(L, p, n) && r != 0 &&
      KeepsPayloads(m, m', L.blocks, {p - HDR})
    ensures u in Contents(R.blocks, m') <==>
      u + HDR == r || (u in Contents(L.blocks, m) && (u + HDR == p ==> Leaks(L, p, n)))
    ensures u in Contents(L.blocks, m) && u + HDR != p && u + HDR != r ==>
      Contents(R.blocks, m')[u] == Contents(L.blocks, m)[u]
  {
    hide HeapLayout.Realloc, KeepsPayloads, Sound, Payload, Leaks;
    ReallocUsed(L, p, n, r, R, u);
    if IsUsed(L.blocks, u) && u + HDR != p && u + HDR != r { PayloadKept(L.blocks, m, R.blocks, m', {p - HDR}, u); }
  }

  lemma ReallocAbove(L: Layout, p: nat, n: nat)
    requires Sound(L) && Live(L, p)
    ensures HeapLayout.Realloc(L, p, n).0.blocks.end == L.blocks.end
    ensures HeapLayout.Realloc(L, p, n).1 != 0 ==> HDR <= HeapLayout.Realloc(L, p, n).1
  {
    MallocSound(L, n);
  }

  /** `t` has room for `n` bytes and starts with as many bytes of `s` as fit `n`. */
  ghost predicate StartsLike(t: seq<byte>, s: seq<byte>, n: nat) {
    n <= |t| && if n < |s| then t[..n] == s[..n] else |s| <= |t| && t[..|s|] == s
  }

  lemma ContentsHas(L: Layout, p: nat, m: seq<byte>)
    requires HDR <= p
    ensures p - HDR in Contents(L.blocks, m) <==> Live(L, p)
    ensures Live(L, p) ==> Contents(L.blocks, m)[p - HDR] == Payload(L.blocks, m, p - HDR)
  {
  }

  /** The pointer `wdrealloc` returns owns at least `n` bytes, which start like the old ones. */
  lemma ReallocStarts(L: Layout, p: nat, n: nat, r: nat, R: Layout, m: seq<byte>, m': seq<byte>)
    requires Sound(L) && L.blocks.end <= |m| == |m'| && Live(L, p) && (R, r) == HeapLayout.Realloc(L, p, n) && r != 0
    requires Carried(m, m', r, p, if n < L.blocks.tags[p - HDR].size then n else L.blocks.tags[p - HDR].size)
    ensures HDR <= r && r - HDR in Contents(R.blocks, m') && p - HDR in Contents(L.blocks, m)
    ensures StartsLike(Contents(R.blocks, m')[r - HDR], Contents(L.blocks, m)[p - HDR], n)
    ensures |Contents(R.blocks, m')[r - HDR]| <= n + 15
  {
    hide HeapLayout.Realloc, Sound, Leaks, Contents, Payload, Carried, StartsLike;
    ReallocSound(L, p, n);
    ReallocAbove(L, p, n);
    ReallocUsed(L, p, n, r, R, r - HDR);
    ContentsHas(R, r, m');
    ContentsHas(L, p, m);
    PayloadIs(R, m', r - HDR);
    PayloadIs(L, m, p - HDR);
    CarriedStarts(m, m', r, p, n, L.blocks.tags[p - HDR].size, R.blocks.tags[r - HDR].size);
  }

  lemma PayloadIs(L: Layout, m: seq<byte>, u: nat)
    requires Sound(L) && L.blocks.end <= |m| && u in L.blocks.tags
    ensures u + HDR + L.blocks.tags[u].size <= |m|
    ensures Payload(L.blocks, m, u) == m[u + HDR..u + HDR + L.blocks.tags[u].size]
  {
    assert TileAt(L.blocks, u);
  }

  lemma CarriedStarts(m: seq<byte>, m': seq<byte>, r: nat, p: nat, n: nat, s: nat, t: nat)
    requires Carried(m, m', r, p, if n < s then n else s) && p + s <= |m| && r + t <= |m'| && n <= t
    ensures StartsLike(m'[r..r + t], m[p..p + s], n)
  {
    var k, now, was := if n < s then n else s, m'[r..r + t], m[p..p + s];
    forall x | 0 <= x < k ensures now[x] == was[x] { assert m'[r + x] == m[p + (r + x - r)]; }
    assert now[..k] == was[..k];
  }

  /** The map loses `p` and gains `r`, all else is as it was. */
  lemma OneMoved(C: map<nat, seq<byte>>, C': map<nat, seq<byte>>, p: nat, r: nat)
    requires p in C && (r != p ==> r !in C)
    requires forall u :: u != p && u != r ==> (u in C' <==> u in C) && (u in C ==> C'[u] == C[u])
    ensures C' - {p, r} == C - {p}
  {
  }

  /** `wdrealloc` replaces `p` by the pointer it returns; the old block survives next to it exactly when it leaks. */
  lemma ReallocContents(L: Layout, p: nat, n: nat, r: nat, R: Layout, m: seq<byte>, m': seq<byte>)
    requires Sound(L) && Live(L, p) && (R, r) == HeapLayout.Realloc(L, p, n) && r != 0 &&
      KeepsPayloads(m, m', L.blocks, {p - HDR})
    ensures HDR <= r && p - HDR in Contents(L.blocks, m) && (r - HDR in Contents(L.blocks, m) ==> r == p)
    ensures Contents(R.blocks, m') - {p - HDR, r - HDR} == Contents(L.blocks, m) - {p - HDR}
    ensures r != p ==> (p - HDR in Contents(R.blocks, m') <==> Leaks(L, p, n))
  {
    hide HeapLayout.Realloc, KeepsPayloads, Sound, Payload, Leaks;
    ReallocAbove(L, p, n);
    var C, C' := Contents(L.blocks, m), Contents(R.blocks, m');
    ReallocUsed(L, p, n, r, R, r - HDR);
    ReallocContentsAt(L, p, n, r, R, m, m', p - HDR);
    forall u | u != p - HDR && u != r - HDR ensures (u in C' <==> u in C) && (u in C ==> C'[u] == C[u]) {
      ReallocContentsAt(L, p, n, r, R, m, m', u);
    }
    OneMoved(C, C', p - HDR, r - HDR);
  }

  /** `wdrealloc` to 0 bytes that returns NULL has freed the block. */
  lemma ReallocZero(L: Layout, p: nat, R: Layout, m: seq<byte>, m': seq<byte>)
    requires Sound(L) && Live(L, p) && (R, 0) == HeapLayout.Realloc(L, p, 0) && L.fl != [] &&
      KeepsPayloads(m, m', L.blocks, {p - HDR})
    ensures Contents(R.blocks, m') == Contents(L.blocks, m) - {p - HDR}
  {
    ZeroFrees(L, p);
    hide HeapLayout.Free, KeepsPayloads, Sound, Contents;
    FreeContents(L, p, m, m');
  }

  lemma ZeroFrees(L: Layout, p: nat)
    requires Sound(L) && Live(L, p) && HeapLayout.Realloc(L, p, 0).1 == 0 && L.fl != []
    ensures HeapLayout.Realloc(L, p, 0).0 == HeapLayout.Free(L, p) && Frees(L, p)
  {
    hide HeapLayout.Free, Shrink, Grow;
    assert TileAt(L.blocks, p - HDR);
  }

  // ----- The calls

  /** What a client sees of a heap. */
  ghost function Owned(h: Heap): map<nat, seq<byte>>
    reads h, h.ram
  {
    Contents(h.lay.blocks, h.ram[..])
  }

  /** A new pointer `r` with `n` to `n + 11` bytes, and nothing else. */
  ghost predicate Gains(C: map<nat, seq<byte>>, C': map<nat, seq<byte>>, r: nat, n: nat) {
    && HDR <= r && r - HDR !in C && r - HDR in C'
    && C' - {r - HDR} == C && n <= |C'[r - HDR]| < n + HDR
  }

  /** Pointer `r` stands in for `p`, starts like it and has `n` to `n + 15` bytes; all else is as it was. */
  ghost predicate Moves(C: map<nat, seq<byte>>, C': map<nat, seq<byte>>, p: nat, r: nat, n: nat) {
    && HDR <= p && p - HDR in C && HDR <= r && r - HDR in C' && (r - HDR in C ==> r == p)
    && C' - {p - HDR, r - HDR} == C - {p - HDR}
    && StartsLike(C'[r - HDR], C[p - HDR], n) && |C'[r - HDR]| <= n + 15
  }

  ghost predicate NothingFits(B: Blocks, n: nat) {
    forall a :: a in B.tags ==> !Fits(B, a, n)
  }

  method Allocate(h: Heap, n: nat) returns (r: nat)
    requires h.Valid() && n < U16
    modifies h, h.ram
    ensures h.Valid() && (h.lay, r) == HeapLayout.Malloc(old(h.lay), n)
    ensures KeepsPayloads(old(h.ram[..]), h.ram[..], old(h.lay).blocks, {})
    ensures r == 0 <==> NothingFits(old(h.lay).blocks, n)
    ensures if r == 0 then Owned(h) == old(Owned(h)) else Gains(old(Owned(h)), Owned(h), r, n)
  {
    hide Contents, KeepsPayloads, HeapLayout.Malloc, Holds, Shows, Chain, Tiled, Listed;
    ghost var L, m := h.lay, h.ram[..];
    MallocFails(L, n);
    r := h.Malloc(n);
    MallocContents(L, n, r, h.lay, m, h.ram[..]);
  }

  method Release(h: Heap, p: nat)
    requires h.Valid() && (Live(h.lay, p) || !(h.lay.blocks.start + HDR <= p < h.lay.blocks.end))
    modifies h, h.ram
    ensures h.Valid() && h.lay == HeapLayout.Free(old(h.lay), p)
    ensures KeepsPayloads(old(h.ram[..]), h.ram[..], old(h.lay).blocks, {})
    ensures Owned(h) == if Live(old(h.lay), p) && Frees(old(h.lay), p) then old(Owned(h)) - {p - HDR} else old(Owned(h))
  {
    hide Contents, KeepsPayloads, HeapLayout.Free, Holds, Shows, Chain, Tiled, Listed;
    ghost var L, m := h.lay, h.ram[..];
    h.Free(p);
    if Live(L, p) {
      KeepsMore(m, h.ram[..], L.blocks, if Frees(L, p) then {p - HDR} else {});
      FreeContents(L, p, m, h.ram[..]);
    } else {
      FreeOutside(L, p);
      SameContents(L.blocks, m, h.ram[..]);
    }
  }

  lemma FreeOutside(L: Layout, p: nat)
    requires !(L.blocks.start + HDR <= p < L.blocks.end)
    ensures HeapLayout.Free(L, p) == L
  {
  }

  lemma SameContents(B: Blocks, m: seq<byte>, m': seq<byte>)
    requires KeepsPayloads(m, m', B, {})
    ensures Contents(B, m') == Contents(B, m)
  {
    hide KeepsPayloads, Payload;
    forall u | IsUsed(B, u) ensures Payload(B, m', u) == Payload(B, m, u) { PayloadKept(B, m, B, m', {}, u); }
  }

  /** `wdrealloc` of a live pointer returns NULL: the freelist is empty, it frees, or there is no room anywhere. */
  ghost predicate ReallocFails(L: Layout, p: nat, n: nat)
    requires Live(L, p)
  {
    || L.fl == []
    || (n == 0 && L.blocks.tags[p - HDR].size > 0)
    || (n > L.blocks.tags[p - HDR].size && !RoomBeside(L.blocks, p - HDR, n) && NothingFits(L.blocks, n))
  }

  lemma ReallocFailsIs(L: Layout, p: nat, n: nat)
    requires Sound(L) && Live(L, p)
    ensures HeapLayout.Realloc(L, p, n).1 == 0 <==> ReallocFails(L, p, n)
  {
    hide Choose, HeapLayout.Malloc, HeapLayout.Free, Shrink, Tiled, Listed, BackTag;
    ChooseIs(L.blocks, p - HDR, n);
    MallocFails(L, n);
  }

  /** What `wdrealloc` does to the map; `L` is the layout before. */
  ghost predicate Resized(L: Layout, C: map<nat, seq<byte>>, p: nat, n: nat, r: nat, C': map<nat, seq<byte>>) {
    if p == 0 then (r == 0 <==> NothingFits(L.blocks, n)) && if r == 0 then C' == C else Gains(C, C', r, n)
    else
      && Live(L, p) && (r == 0 <==> ReallocFails(L, p, n))
      && if r != 0 then Moves(C, C', p, r, n) && (r != p ==> (p - HDR in C' <==> Leaks(L, p, n)))
         else C' == if n == 0 && L.fl != [] then C - {p - HDR} else C
  }

  method Resize(h: Heap, p: nat, n: nat) returns (r: nat)
    requires h.Valid() && n < U16 && (p == 0 || Live(h.lay, p))
    modifies h, h.ram
    ensures h.Valid() && (h.lay, r) == HeapLayout.Realloc(old(h.lay), p, n)
    ensures KeepsPayloads(old(h.ram[..]), h.ram[..], old(h.lay).blocks, if p == 0 then {} else {p - HDR})
    ensures r == 0 && (n > 0 || old(h.lay).fl == []) ==> h.ram[..] == old(h.ram[..]) && h.lay == old(h.lay)
    ensures Resized(old(h.lay), old(Owned(h)), p, n, r, Owned(h))
  {
    hide Contents, KeepsPayloads, Carried, HeapLayout.Realloc, Holds, Shows, Chain, Tiled, Listed, Leaks;
    hide StartsLike, NothingFits, ReallocFails;
    ghost var L, m := h.lay, h.ram[..];
    if p != 0 { ReallocFailsIs(L, p, n); }
    r := h.Realloc(p, n);
    if p == 0 {
      ReallocNull(L, n);
      MallocContents(L, n, r, h.lay, m, h.ram[..]);
    } else if r != 0 {
      ReallocContents(L, p, n, r, h.lay, m, h.ram[..]);
      ReallocStarts(L, p, n, r, h.lay, m, h.ram[..]);
    } else if n == 0 && L.fl != [] {
      ReallocZero(L, p, h.lay, m, h.ram[..]);
    }
  }

  /** `wdrealloc(NULL, n)` is `wdmalloc(n)`. */
  lemma ReallocNull(L: Layout, n: nat)
    requires Sound(L)
    ensures HeapLayout.Realloc(L, 0, n) == HeapLayout.Malloc(L, n)
    ensures HeapLayout.Malloc(L, n).1 == 0 <==> NothingFits(L.blocks, n)
  {
    MallocFails(L, n);
  }

  // ----- Stores by the client

  ghost function WithByte(C: map<nat, seq<byte>>, u: nat, i: nat, b: byte): map<nat, seq<byte>>
    requires u in C && i < |C[u]|
  {
    var s: seq<byte> := C[u][i := b];
    C[u := s]
  }

  /** A store into a payload is a store into the map, and the heap does not notice. */
  method StoreByte(h: Heap, p: nat, i: nat, b: byte)
    requires h.Valid() && Live(h.lay, p) && i < h.lay.blocks.tags[p - HDR].size
    modifies h.ram
    ensures h.Valid() && h.lay == old(h.lay)
    ensures KeepsPayloads(old(h.ram[..]), h.ram[..], h.lay.blocks, {p - HDR})
    ensures p - HDR in old(Owned(h)) && i < |old(Owned(h))[p - HDR]|
    ensures Owned(h) == WithByte(old(Owned(h)), p - HDR, i, b)
  {
    assert h.hdrs.Keys == h.lay.blocks.tags.Keys;
    hide Contents, KeepsPayloads, Chain, Shows, Listed, Tiled;
    ghost var m := h.ram[..];
    ContentsHas(h.lay, p, m);
    PayloadSize(h.lay, m, p - HDR);
    assert p + i < h.ram.Length by { LivePayloads(h.lay, p, p); }
    h.ram[p + i] := b;
    StoredHolds(h.lay, h.hdrs, m, h.ram[..], p, i);
    StoredContents(h.lay, m, h.ram[..], p, i, b);
  }

  lemma StoredHolds(L: Layout, hdrs: map<nat, Hdr>, m: seq<byte>, m': seq<byte>, p: nat, i: nat)
    requires Sound(L) && Live(L, p) && i < L.blocks.tags[p - HDR].size && hdrs.Keys == L.blocks.tags.Keys
    requires Holds(m, hdrs) && |m'| == |m| && forall x :: 0 <= x < |m| && x != p + i ==> m'[x] == m[x]
    ensures Holds(m', hdrs)
  {
    PayloadClear(L.blocks, p - HDR, p + i);
    forall a | a in hdrs ensures HeldAt(m', hdrs, a) {
      assert HeldAt(m, hdrs, a);
      SameSlice(m', m, a, a + HDR);
    }
  }

  lemma StoredContents(L: Layout, m: seq<byte>, m': seq<byte>, p: nat, i: nat, b: byte)
    requires Sound(L) && L.blocks.end <= |m| && Live(L, p) && i < L.blocks.tags[p - HDR].size
    requires p + i < |m| && m' == m[p + i := b]
    requires p - HDR in Contents(L.blocks, m) && i < |Contents(L.blocks, m)[p - HDR]|
    ensures KeepsPayloads(m, m', L.blocks, {p - HDR})
    ensures Contents(L.blocks, m') == WithByte(Contents(L.blocks, m), p - HDR, i, b)
  {
    hide KeepsPayloads, Payload, Sound, Contents;
    StoredKeeps(L, m, m', p, i);
    StoredPayload(L, m, m', p, i, b);
    var B, u := L.blocks, p - HDR;
    var C, C' := Contents(B, m), Contents(B, m');
    forall v: nat ensures (v in C' <==> v in C) && (v in C && v != u ==> C'[v] == C[v]) {
      ContentsHas(L, v + HDR, m);
      ContentsHas(L, v + HDR, m');
      if v in C && v != u { PayloadKept(B, m, B, m', {u}, v); }
    }
    ContentsHas(L, p, m);
    ContentsHas(L, p, m');
  }

  lemma StoredPayload(L: Layout, m: seq<byte>, m': seq<byte>, p: nat, i: nat, b: byte)
    requires Sound(L) && L.blocks.end <= |m| && Live(L, p) && i < L.blocks.tags[p - HDR].size
    requires p + i < |m| && m' == m[p + i := b]
    ensures i < |Payload(L.blocks, m, p - HDR)|
    ensures Payload(L.blocks, m', p - HDR) == Payload(L.blocks, m, p - HDR)[i := b]
  {
    PayloadSize(L, m, p - HDR);
    assert TileAt(L.blocks, p - HDR);
  }

  lemma StoredKeeps(L: Layout, m: seq<byte>, m': seq<byte>, p: nat, i: nat)
    requires Sound(L) && Live(L, p) && i < L.blocks.tags[p - HDR].size
    requires |m'| == |m| && forall x :: 0 <= x < |m| && x != p + i ==> m'[x] == m[x]
    ensures KeepsPayloads(m, m', L.blocks, {p - HDR})
  {
    LivePayloads(L, p, p);
    forall u: nat, x: int | IsUsed(L.blocks, u) && u != p - HDR && u + HDR <= x < Next(L.blocks, u) && x < |m|
      ensures m'[x] == m[x]
    {
      LivePayloads(L, p, u + HDR);
    }
  }
}
