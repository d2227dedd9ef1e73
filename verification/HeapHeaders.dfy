/** What the header words of a heap must hold to show a layout, and what each group of writes makes them show. */
module HeapHeaders {
  import opened Bytes
  import opened CString
  import opened HeapLayout
  import opened HeapMemory
  import opened HeapSafety

  ghost function Link(fl: seq<nat>, i: nat): nat {
    if i < |fl| then fl[i] else 0
  }

  ghost function Before(fl: seq<nat>, i: nat): nat
    requires i <= |fl|
  {
    if i == 0 then 0 else fl[i - 1]
  }

  ghost predicate LinkAt(hdrs: map<nat, Hdr>, fl: seq<nat>, i: nat)
    requires i < |fl|
  {
    fl[i] in hdrs && hdrs[fl[i]].lom == Link(fl, i + 1)
  }

  /** The links in the headers thread the freelist `fl` from `head`. */
  ghost predicate Chain(hdrs: map<nat, Hdr>, head: nat, fl: seq<nat>) {
    && head == Link(fl, 0)
    && forall i {:trigger LinkAt(hdrs, fl, i)} :: 0 <= i < |fl| ==> LinkAt(hdrs, fl, i)
  }

  ghost function Raw(t: Tag): nat {
    if t.free then t.size else t.size + ALLOC_BIT
  }

  ghost predicate ShownAt(hdrs: map<nat, Hdr>, B: Blocks, a: nat)
    requires a in B.tags
  {
    && a in hdrs
    && hdrs[a].prev == B.tags[a].prev
    && hdrs[a].sz == Raw(B.tags[a])
    && (!B.tags[a].free ==> hdrs[a].lom == MAGIC)
  }

  /** The headers in memory are those of the blocks, and every used block carries the magic word. */
  ghost predicate Shows(hdrs: map<nat, Hdr>, B: Blocks) {
    && hdrs.Keys == B.tags.Keys
    && forall a {:trigger ShownAt(hdrs, B, a)} :: a in B.tags ==> ShownAt(hdrs, B, a)
  }

  lemma PosIs(s: seq<nat>, x: nat, j: nat)
    requires j < |s| && s[j] == x && x !in s[..j]
    ensures Pos(s, x) == j
  {
  }

  // ----- Freelist surgery on header maps

  lemma ChainFrame(hdrs: map<nat, Hdr>, hdrs': map<nat, Hdr>, head: nat, fl: seq<nat>)
    requires Chain(hdrs, head, fl)
    requires forall x :: x in fl && x in hdrs ==> x in hdrs' && hdrs'[x].lom == hdrs[x].lom
    ensures Chain(hdrs', head, fl)
  {
    forall i | 0 <= i < |fl| ensures LinkAt(hdrs', fl, i) { assert LinkAt(hdrs, fl, i) && fl[i] in fl; }
  }

  /** `hdrs'` agrees with `hdrs` on the links of all listed blocks other than the one at `j` and the one before it. */
  ghost predicate SameLinks(hdrs: map<nat, Hdr>, hdrs': map<nat, Hdr>, fl: seq<nat>, j: nat) {
    forall i {:trigger fl[i]} :: 0 <= i < |fl| && i != j && i + 1 != j ==>
      fl[i] in hdrs && fl[i] in hdrs' && hdrs'[fl[i]].lom == hdrs[fl[i]].lom
  }

  lemma UnlinkChain(hdrs: map<nat, Hdr>, hdrs': map<nat, Hdr>, head: nat, fl: seq<nat>, j: nat)
    requires Chain(hdrs, head, fl) && j < |fl| && SameLinks(hdrs, hdrs', fl, j) && fl[j] in hdrs
    requires j > 0 ==> fl[j - 1] in hdrs' && hdrs'[fl[j - 1]].lom == hdrs[fl[j]].lom
    ensures Chain(hdrs', if j == 0 then hdrs[fl[j]].lom else head, RemoveAt(fl, j))
  {
    var r := RemoveAt(fl, j);
    assert LinkAt(hdrs, fl, j);
    forall i | 0 <= i < |r| ensures LinkAt(hdrs', r, i) {
      assert LinkAt(hdrs, fl, if i < j then i else i + 1);
      assert r[i] == fl[if i < j then i else i + 1];
    }
  }

  lemma SubstituteChain(hdrs: map<nat, Hdr>, hdrs': map<nat, Hdr>, head: nat, fl: seq<nat>, j: nat, a: nat)
    requires Chain(hdrs, head, fl) && j < |fl| && SameLinks(hdrs, hdrs', fl, j) && fl[j] in hdrs
    requires a in hdrs' && hdrs'[a].lom == hdrs[fl[j]].lom
    requires j > 0 ==> fl[j - 1] in hdrs' && hdrs'[fl[j - 1]].lom == a
    ensures Chain(hdrs', if j == 0 then a else head, fl[j := a])
  {
    var r := fl[j := a];
    forall i | 0 <= i < |r| ensures LinkAt(hdrs', r, i) {
      assert LinkAt(hdrs, fl, i);
      assert i != j ==> r[i] == fl[i];
    }
  }

  lemma PushChain(hdrs: map<nat, Hdr>, head: nat, fl: seq<nat>, a: nat)
    requires Chain(hdrs, head, fl) && a in hdrs && hdrs[a].lom == head
    ensures Chain(hdrs, a, [a] + fl)
  {
    forall i | 0 <= i < |fl| + 1 ensures LinkAt(hdrs, [a] + fl, i) {
      if i > 0 { assert LinkAt(hdrs, fl, i - 1); }
    }
  }

  lemma {:induction false} WithoutSnoc(s: seq<nat>, z: nat, x: nat, y: nat)
    ensures Without(s + [z], x, y) == Without(s, x, y) + (if z == x || z == y then [] else [z])
  {
    if s == [] {
      assert s + [z] == [z] && [z][1..] == [];
    } else {
      assert (s + [z])[1..] == s[1..] + [z];
      WithoutSnoc(s[1..], z, x, y);
    }
  }

  /** `cur` is the freelist `fl` after a dropping pass has reached position `i`, having kept `k` entries. */
  ghost predicate Swept(fl: seq<nat>, i: nat, k: nat, cur: seq<nat>, x: nat, y: nat) {
    && i <= |fl| && k <= |cur|
    && cur[..k] == Without(fl[..i], x, y) && cur[k..] == fl[i..]
    && Distinct(cur) && 0 !in cur && (forall z :: z in cur ==> z in fl)
  }

  lemma SweptStart(fl: seq<nat>, x: nat, y: nat)
    requires Distinct(fl) && 0 !in fl
    ensures Swept(fl, 0, 0, fl, x, y)
  {
  }

  lemma SweptAt(fl: seq<nat>, i: nat, k: nat, cur: seq<nat>, x: nat, y: nat)
    requires Swept(fl, i, k, cur, x, y)
    ensures i <= |fl| && k <= |cur| && Link(fl, i) == Link(cur, k) && (i < |fl| <==> k < |cur|) &&
      Link(fl, i + 1) == Link(cur, k + 1)
    ensures Distinct(cur) && 0 !in cur && (forall z :: z in cur ==> z in fl) && (i < |fl| <==> Link(fl, i) != 0)
  {
    assert |cur| - k == |fl| - i;
    assert forall d :: 0 <= d < |fl| - i ==> cur[k + d] == cur[k..][d] == fl[i..][d] == fl[i + d];
    if i < |fl| { assert cur[k] == cur[k + 0] == fl[i + 0] && cur[k] in cur; }
    if i + 1 < |fl| { assert cur[k + 1] == fl[i + 1]; }
  }

  lemma SweptDrop(fl: seq<nat>, i: nat, k: nat, cur: seq<nat>, x: nat, y: nat)
    requires Swept(fl, i, k, cur, x, y) && i < |fl| && k < |cur| && (fl[i] == x || fl[i] == y)
    ensures Swept(fl, i + 1, k, RemoveAt(cur, k), x, y)
  {
    var r := RemoveAt(cur, k);
    TakenOut(cur, k);
    assert fl[..i + 1] == fl[..i] + [fl[i]];
    WithoutSnoc(fl[..i], fl[i], x, y);
    assert r[..k] == cur[..k] && r[k..] == cur[k..][1..] && fl[i + 1..] == fl[i..][1..];
  }

  lemma SweptKeep(fl: seq<nat>, i: nat, k: nat, cur: seq<nat>, x: nat, y: nat)
    requires Swept(fl, i, k, cur, x, y) && i < |fl| && k < |cur| && !(fl[i] == x || fl[i] == y)
    ensures Swept(fl, i + 1, k + 1, cur, x, y)
  {
    assert fl[..i + 1] == fl[..i] + [fl[i]];
    WithoutSnoc(fl[..i], fl[i], x, y);
    assert cur[k] == cur[k..][0] == fl[i..][0];
    assert cur[..k + 1] == cur[..k] + [cur[k]];
    assert cur[k + 1..] == cur[k..][1..] && fl[i + 1..] == fl[i..][1..];
  }

  lemma SweptEnd(fl: seq<nat>, k: nat, cur: seq<nat>, x: nat, y: nat)
    requires Swept(fl, |fl|, k, cur, x, y)
    ensures cur == Without(fl, x, y)
  {
    assert fl[..|fl|] == fl && cur[k..] == [] && cur == cur[..k] + cur[k..];
  }

  lemma RemovedLink(s: seq<nat>, k: nat)
    requires k < |s|
    ensures Link(RemoveAt(s, k), k) == Link(s, k + 1) && |RemoveAt(s, k)| == |s| - 1
    ensures Before(RemoveAt(s, k), k) == Before(s, k)
  {
  }

  lemma ChainHead(hdrs: map<nat, Hdr>, head: nat, fl: seq<nat>)
    requires Chain(hdrs, head, fl)
    ensures head == Link(fl, 0)
  {
  }

  /** Only links of blocks on `fl` may differ. */
  ghost predicate LinksOnly(hdrs: map<nat, Hdr>, hdrs': map<nat, Hdr>, fl: seq<nat>) {
    && hdrs'.Keys == hdrs.Keys
    && forall x {:trigger hdrs'[x]} :: x in hdrs ==>
        hdrs'[x].prev == hdrs[x].prev && hdrs'[x].sz == hdrs[x].sz && (x !in fl ==> hdrs'[x].lom == hdrs[x].lom)
  }

  // ----- How field writes show the split or fused blocks

  lemma SplitShown(hdrs: map<nat, Hdr>, hdrs': map<nat, Hdr>, B: Blocks, a: nat, s: nat, low: bool, high: bool)
    requires Tiled(B) && a in B.tags && s + HDR <= B.tags[a].size && Shows(hdrs, B)
    requires var b, c, r := a + HDR + s, Next(B, a), B.tags[a].size - s - HDR;
      && hdrs'.Keys == hdrs.Keys + {b}
      && hdrs'[a].prev == hdrs[a].prev && hdrs'[a].sz == Raw(Tag(0, s, low)) && (!low ==> hdrs'[a].lom == MAGIC)
      && hdrs'[b].prev == s && hdrs'[b].sz == Raw(Tag(0, r, high)) && (!high ==> hdrs'[b].lom == MAGIC)
      && (c in hdrs ==> hdrs'[c] == hdrs[c].(prev := r))
      && (forall x :: x in hdrs && x != a && x != c ==> hdrs'[x] == hdrs[x])
    ensures Shows(hdrs', Split(B, a, s, low, high))
  {
    var S := Split(B, a, s, low, high);
    forall x ensures x in S.tags <==> x in hdrs' { SplitAt(B, a, s, low, high, x); }
    forall x | x in S.tags ensures ShownAt(hdrs', S, x) {
      SplitAt(B, a, s, low, high, x);
      assert x in B.tags ==> ShownAt(hdrs, B, x);
    }
  }

  lemma FuseShown(hdrs: map<nat, Hdr>, hdrs': map<nat, Hdr>, B: Blocks, a: nat)
    requires Tiled(B) && a in B.tags && Next(B, a) in B.tags && Shows(hdrs, B)
    requires var b := Next(B, a); var c, s := Next(B, b), B.tags[a].size + HDR + B.tags[b].size;
      && hdrs'.Keys == hdrs.Keys - {b}
      && a in hdrs' && hdrs'[a].prev == hdrs[a].prev && hdrs'[a].sz == Raw(Tag(0, s, B.tags[a].free))
      && (!B.tags[a].free ==> hdrs'[a].lom == MAGIC)
      && (forall x :: x in hdrs' && x in hdrs && x != a ==>
            && hdrs'[x].prev == (if x == c then s else hdrs[x].prev)
            && hdrs'[x].sz == hdrs[x].sz
            && (!B.tags[x].free ==> hdrs'[x].lom == hdrs[x].lom))
    ensures Shows(hdrs', Fuse(B, a))
  {
    var F := Fuse(B, a);
    forall x ensures x in F.tags <==> x in hdrs' { FuseAt(B, a, x); }
    forall x | x in F.tags ensures ShownAt(hdrs', F, x) {
      FuseAt(B, a, x);
      assert ShownAt(hdrs, B, x);
    }
  }

  /** The headers after one field write. */
  ghost function Upd(hdrs: map<nat, Hdr>, a: nat, f: Field, v: nat): (h: map<nat, Hdr>)
    requires a in hdrs
    ensures h.Keys == hdrs.Keys
  {
    hdrs[a := f.Set(hdrs[a], v)]
  }

  ghost function Told(hdrs: map<nat, Hdr>, c: nat, v: nat, really: bool): (h: map<nat, Hdr>)
    requires really ==> c in hdrs
    ensures h.Keys == hdrs.Keys
  {
    if really then Upd(hdrs, c, PrevSz, v) else hdrs
  }

  /** The listed predecessor of position `j`, if there is one, now points to `v`. */
  ghost function Pointed(hdrs: map<nat, Hdr>, fl: seq<nat>, j: nat, v: nat): (h: map<nat, Hdr>)
    requires j <= |fl| && (j > 0 ==> fl[j - 1] in hdrs)
    ensures h.Keys == hdrs.Keys
  {
    if j == 0 then hdrs else Upd(hdrs, fl[j - 1], Lom, v)
  }

  /** The headers after `Carve`. */
  ghost function Carved(hdrs: map<nat, Hdr>, a: nat, s: nat, n: nat, more: bool): map<nat, Hdr>
    requires a in hdrs && (more ==> a + HDR + s + HDR + n in hdrs)
  {
    var b := a + HDR + s;
    Told(Upd(hdrs, a, Sz, s)[b := Hdr(s, n + ALLOC_BIT, MAGIC)], b + HDR + n, n, more)
  }

  lemma CarveReady(L: Layout, hdrs: map<nat, Hdr>, a: nat)
    requires Sound(L) && Shows(hdrs, L.blocks) && a in L.blocks.tags
    ensures a in hdrs && hdrs[a].sz == Raw(L.blocks.tags[a]) && L.blocks.tags[a].size < ALLOC_BIT
    ensures Next(L.blocks, a) <= L.blocks.end && (L.blocks.start <= Next(L.blocks, a) < L.blocks.end <==>
      Next(L.blocks, a) in hdrs)
    ensures hdrs.Keys == L.blocks.tags.Keys && Tiled(L.blocks)
  {
    SizesFit(L.blocks, a);
    assert ShownAt(hdrs, L.blocks, a);
  }

  lemma RoomForHeader(B: Blocks, a: nat, b: nat)
    requires Tiled(B) && a in B.tags && a + HDR <= b && b + HDR <= Next(B, a)
    ensures forall x :: x in B.tags ==> x + HDR <= b || b + HDR <= x
  {
    assert TileAt(B, a);
    forall x | x in B.tags ensures x + HDR <= b || b + HDR <= x { assert TileAt(B, x) && Next(B, x) >= x + HDR; }
  }

  lemma CarvedEffect(h: map<nat, Hdr>, a: nat, s: nat, n: nat, b: nat, c: nat, more: bool, g: map<nat, Hdr>)
    requires a in h && b !in h && b == a + HDR + s && c == b + HDR + n && (more ==> c in h) &&
      g == Carved(h, a, s, n, more)
    ensures g.Keys == h.Keys + {b} && g[b] == Hdr(s, n + ALLOC_BIT, MAGIC)
    ensures forall x {:trigger g[x]} {:trigger x in g} :: x in h ==>
      g[x] == Hdr(if x == c && more then n else h[x].prev, if x == a then s else h[x].sz, h[x].lom)
  {
  }

  lemma CarvedShown(L: Layout, hdrs: map<nat, Hdr>, head: nat, a: nat, s: nat, n: nat, b: nat, c: nat, h: map<nat, Hdr>)
    requires Sound(L) && Shows(hdrs, L.blocks) && Chain(hdrs, head, L.fl)
    requires IsFree(L.blocks, a) && s + HDR + n == L.blocks.tags[a].size && b == a + HDR + s && c == Next(L.blocks, a)
    requires a in hdrs && (c in hdrs ==> c == b + HDR + n) && h == Carved(hdrs, a, s, n, c in hdrs)
    ensures Shows(h, Split(L.blocks, a, s, true, false)) && Chain(h, head, L.fl)
  {
    SplitAt(L.blocks, a, s, true, false, b);
    CarvedEffect(hdrs, a, s, n, b, c, c in hdrs, h);
    assert ShownAt(hdrs, L.blocks, a);
    SplitShown(hdrs, h, L.blocks, a, s, true, false);
    ChainFrame(hdrs, h, head, L.fl);
  }

  /** Nothing but links of free blocks may differ. */
  ghost predicate Relinked(hdrs: map<nat, Hdr>, hdrs': map<nat, Hdr>, B: Blocks) {
    && hdrs'.Keys == hdrs.Keys == B.tags.Keys
    && forall x {:trigger hdrs'[x]} :: x in B.tags ==>
        hdrs'[x].prev == hdrs[x].prev && hdrs'[x].sz == hdrs[x].sz && (!B.tags[x].free ==> hdrs'[x].lom == hdrs[x].lom)
  }

  lemma RelinkedShows(hdrs: map<nat, Hdr>, hdrs': map<nat, Hdr>, B: Blocks)
    requires Shows(hdrs, B) && Relinked(hdrs, hdrs', B)
    ensures Shows(hdrs', B)
  {
    forall x | x in B.tags ensures ShownAt(hdrs', B, x) { assert ShownAt(hdrs, B, x); }
  }

  /** Repointing a listed block touches no tag. */
  lemma PointedRelinks(L: Layout, hdrs: map<nat, Hdr>, k: nat, v: nat)
    requires Sound(L) && Shows(hdrs, L.blocks) && k < |L.fl| && (k > 0 ==> L.fl[k - 1] in hdrs)
    ensures Relinked(hdrs, Pointed(hdrs, L.fl, k, v), L.blocks)
  {
    if k > 0 { assert L.fl[k - 1] in L.fl && IsFree(L.blocks, L.fl[k - 1]); }
  }

  /** The headers after the whole of the block at position `k` has been taken off the freelist. */
  lemma TakenShown(L: Layout, hdrs: map<nat, Hdr>, h: map<nat, Hdr>, g: map<nat, Hdr>, head: nat, k: nat, a: nat)
    requires Sound(L) && k < |L.fl| && a == L.fl[k] && Shows(hdrs, L.blocks) && (k > 0 ==> L.fl[k - 1] in hdrs) &&
      a in hdrs
    requires h == Pointed(hdrs, L.fl, k, hdrs[a].lom) && Chain(h, head, RemoveAt(L.fl, k))
    requires g == Upd(Upd(h, a, Lom, MAGIC), a, Sz, h[a].sz + ALLOC_BIT)
    ensures Shows(g, Mark(L.blocks, a, false)) && Chain(g, head, RemoveAt(L.fl, k))
  {
    var B := L.blocks;
    assert a in L.fl && IsFree(B, a);
    PointedRelinks(L, hdrs, k, hdrs[a].lom);
    RelinkedShows(hdrs, h, B);
    assert ShownAt(h, B, a);
    forall x | x in B.tags ensures ShownAt(g, Mark(B, a, false), x) { assert ShownAt(h, B, x); }
    TakenOut(L.fl, k);
    ChainFrame(h, g, head, RemoveAt(L.fl, k));
  }

  // ----- The headers after each case of `coalesce`

  /** Sound enough for `coalesce` to put the unlisted free block `a` back. */
  ghost predicate Loose(L: Layout, a: nat) {
    && Measured(L.blocks) && Tiled(L.blocks)
    && IsFree(L.blocks, a) && BackTag(L.blocks, a)
    && Distinct(L.fl)
    && forall y :: y in L.fl <==> IsFree(L.blocks, y) && y != a
  }

  /** What the code reads off the tags around `a`. */
  lemma Neighbours(L: Layout, hdrs: map<nat, Hdr>, a: nat)
    requires Loose(L, a) && Shows(hdrs, L.blocks)
    ensures var B := L.blocks; var p, n := Prev(B, a), Next(B, a);
      && a in hdrs && hdrs[a].prev == B.tags[a].prev && hdrs[a].sz == B.tags[a].size
      && (B.start <= p < B.end <==> p in B.tags)
      && (p in B.tags ==> p in hdrs && hdrs[p].sz == Raw(B.tags[p]) && p < a && Next(B, p) == a)
      && (B.start <= n < B.end <==> n in B.tags) && (n in B.tags ==> n in hdrs && hdrs[n].sz == Raw(B.tags[n]) && a < n)
      && B.start <= a && n <= B.end
  {
    var B := L.blocks;
    assert ShownAt(hdrs, B, a) && TileAt(B, a);
    if Prev(B, a) in B.tags { assert ShownAt(hdrs, B, Prev(B, a)) && TileAt(B, Prev(B, a)); }
    if Next(B, a) in B.tags { assert ShownAt(hdrs, B, Next(B, a)) && TileAt(B, Next(B, a)); }
  }

  lemma SizesFit(B: Blocks, a: nat)
    requires Measured(B) && Tiled(B) && a in B.tags
    ensures B.tags[a].size < ALLOC_BIT
    ensures Next(B, a) <= B.end && (B.start <= Next(B, a) < B.end <==> Next(B, a) in B.tags)
  {
    assert TileAt(B, a);
    assert Next(B, a) in B.tags ==> TileAt(B, Next(B, a));
  }

  lemma LooseList(L: Layout, hdrs: map<nat, Hdr>, a: nat)
    requires Loose(L, a) && Shows(hdrs, L.blocks)
    ensures 0 !in L.fl && a !in L.fl
    ensures forall i {:trigger L.fl[i]} :: 0 <= i < |L.fl| ==>
      L.fl[i] in hdrs && IsFree(L.blocks, L.fl[i]) && L.fl[i] < L.blocks.end
  {
    forall x | x in L.fl ensures x != 0 && x in hdrs && x < L.blocks.end {
      assert IsFree(L.blocks, x) && TileAt(L.blocks, x) && Next(L.blocks, x) > x;
    }
  }

  /** Enough to know of headers `h` to see that they show the fused block, whatever the links. */
  ghost predicate Merged(hdrs: map<nat, Hdr>, h: map<nat, Hdr>, B: Blocks, a: nat, gone: set<nat>, c: nat, s: nat) {
    && h.Keys == hdrs.Keys - gone
    && forall x {:trigger h[x]} :: x in h && x in B.tags && x in hdrs ==>
        && h[x].prev == (if x == c then s else hdrs[x].prev)
        && h[x].sz == (if x == a then s else hdrs[x].sz)
        && (!B.tags[x].free ==> h[x].lom == hdrs[x].lom)
  }

  lemma MergePrevShown(L: Layout, hdrs: map<nat, Hdr>, h: map<nat, Hdr>, a: nat)
    requires Loose(L, a) && Shows(hdrs, L.blocks) && PrevFree(L.blocks, a)
    requires var B := L.blocks; var p := Prev(B, a);
      Merged(hdrs, h, B, p, {a}, Next(B, a), B.tags[p].size + HDR + B.tags[a].size)
    ensures Shows(h, Fuse(L.blocks, Prev(L.blocks, a)))
  {
    Neighbours(L, hdrs, a);
    FuseAt(L.blocks, Prev(L.blocks, a), a);
    FuseShown(hdrs, h, L.blocks, Prev(L.blocks, a));
  }

  lemma MergeNextShown(L: Layout, hdrs: map<nat, Hdr>, h: map<nat, Hdr>, a: nat)
    requires Loose(L, a) && Shows(hdrs, L.blocks) && NextFree(L.blocks, a)
    requires var B := L.blocks; var n := Next(B, a);
      Merged(hdrs, h, B, a, {n}, Next(B, n), B.tags[a].size + HDR + B.tags[n].size)
    ensures Shows(h, Fuse(L.blocks, a))
  {
    Neighbours(L, hdrs, a);
    FuseAt(L.blocks, a, a);
    FuseShown(hdrs, h, L.blocks, a);
  }

  lemma MergeBothShown(L: Layout, hdrs: map<nat, Hdr>, h: map<nat, Hdr>, a: nat)
    requires Loose(L, a) && Shows(hdrs, L.blocks) && PrevFree(L.blocks, a) && NextFree(L.blocks, a)
    requires var B := L.blocks; var p, n := Prev(B, a), Next(B, a);
      Merged(hdrs, h, B, p, {a, n}, Next(B, n), B.tags[p].size + HDR + B.tags[a].size + HDR + B.tags[n].size)
    ensures Shows(h, Fuse(Fuse(L.blocks, Prev(L.blocks, a)), Prev(L.blocks, a)))
  {
    var B := L.blocks;
    var p, n := Prev(B, a), Next(B, a);
    var F, s := Fuse(B, p), B.tags[p].size + HDR + B.tags[a].size;
    Neighbours(L, hdrs, a);
    var g := hdrs[p := hdrs[p].(sz := s)][n := hdrs[n].(prev := s)] - {a};
    FuseShown(hdrs, g, B, p);
    FuseTiled(B, p);
    FuseAt(B, p, p);
    FuseAt(B, p, n);
    assert Next(F, p) == n && Next(F, n) == Next(B, n);
    assert TileAt(B, n);
    forall x | x in h && x in g && x != p ensures F.tags[x].free == B.tags[x].free { FuseAt(B, p, x); }
    FuseShown(g, h, F, p);
  }

  /** The headers after the writes of the merge-prev case. */
  ghost function JoinedPrev(h: map<nat, Hdr>, p: nat, n: nat, s: nat, more: bool): map<nat, Hdr>
    requires p in h && (more ==> n in h)
  {
    Told(Upd(h, p, Sz, s), n, s, more)
  }

  /** The headers after the writes of the merge-next case. */
  ghost function JoinedNext(h: map<nat, Hdr>, a: nat, n: nat, c: nat, s: nat, fl: seq<nat>, j: nat,
                            more: bool): map<nat, Hdr>
    requires a in h && n in h && (more ==> c in h) && j <= |fl| && (j > 0 ==> fl[j - 1] in h)
  {
    Told(Pointed(Upd(Upd(h, a, Sz, s), a, Lom, h[n].lom), fl, j, a), c, s, more)
  }

  /** The headers after the writes of the merge-both case. */
  ghost function JoinedBoth(h: map<nat, Hdr>, p: nat, n: nat, c: nat, s: nat, fl: seq<nat>, j: nat,
                            more: bool): map<nat, Hdr>
    requires p in h && n in h && (more ==> c in h) && j <= |fl| && (j > 0 ==> fl[j - 1] in h)
  {
    Told(Pointed(Upd(h, p, Sz, s), fl, j, h[n].lom), c, s, more)
  }

  lemma JoinedPrevEffect(h: map<nat, Hdr>, p: nat, a: nat, n: nat, s: nat, more: bool)
    requires p in h && (more ==> n in h) && p != a
    ensures var g := JoinedPrev(h, p, n, s, more) - {a};
      && g.Keys == h.Keys - {a}
      && forall x {:trigger g[x]} {:trigger x in g} :: x in h && x != a ==>
          g[x] == Hdr(if x == n && more then s else h[x].prev, if x == p then s else h[x].sz, h[x].lom)
  {
  }

  lemma JoinedNextEffect(h: map<nat, Hdr>, a: nat, n: nat, c: nat, s: nat, fl: seq<nat>, j: nat, more: bool)
    requires a in h && n in h && (more ==> c in h) && j <= |fl| && (j > 0 ==> fl[j - 1] in h && fl[j - 1] != a)
    ensures var g := JoinedNext(h, a, n, c, s, fl, j, more) - {n};
      && g.Keys == h.Keys - {n}
      && forall x {:trigger g[x]} {:trigger x in g} :: x in h && x != n ==>
          g[x] == Hdr(if x == c && more then s else h[x].prev, if x == a then s else h[x].sz,
              if x == a then h[n].lom else if j > 0 && x == fl[j - 1] then a else h[x].lom)
  {
  }

  lemma JoinedBothEffect(h: map<nat, Hdr>, p: nat, a: nat, n: nat, c: nat, s: nat, fl: seq<nat>, j: nat, more: bool)
    requires p in h && n in h && (more ==> c in h) && j <= |fl| && (j > 0 ==> fl[j - 1] in h)
    ensures var g := JoinedBoth(h, p, n, c, s, fl, j, more) - {a, n};
      && g.Keys == h.Keys - {a, n}
      && forall x {:trigger g[x]} {:trigger x in g} :: x in h && x != a && x != n ==>
          g[x] == Hdr(if x == c && more then s else h[x].prev, if x == p then s else h[x].sz,
              if j > 0 && x == fl[j - 1] then h[n].lom else h[x].lom)
  {
  }

  /** The addresses the code works with around `a`, and why they may be used. */
  ghost predicate Around(L: Layout, hdrs: map<nat, Hdr>, a: nat, p: int, n: nat) {
    && Loose(L, a) && Shows(hdrs, L.blocks)
    && p == Prev(L.blocks, a) && n == Next(L.blocks, a)
  }

  lemma JoinedPrevDone(L: Layout, hdrs: map<nat, Hdr>, head: nat, a: nat, p: nat, n: nat, s: nat, h: map<nat, Hdr>)
    requires Around(L, hdrs, a, p, n) && Chain(hdrs, head, L.fl) && PrevFree(L.blocks, a)
    requires p in hdrs && (n in L.blocks.tags ==> n in hdrs)
    requires s == L.blocks.tags[p].size + HDR + L.blocks.tags[a].size
    requires h == JoinedPrev(hdrs, p, n, s, n in L.blocks.tags) - {a}
    ensures Shows(h, Fuse(L.blocks, p)) && Chain(h, head, L.fl)
  {
    Neighbours(L, hdrs, a);
    JoinedPrevEffect(hdrs, p, a, n, s, n in L.blocks.tags);
    MergePrevShown(L, hdrs, h, a);
    ChainFrame(hdrs, h, head, L.fl);
  }

  lemma JoinedNextDone(L: Layout, hdrs: map<nat, Hdr>, head: nat, a: nat, n: nat, c: nat, s: nat, j: nat,
                       h: map<nat, Hdr>)
    requires Loose(L, a) && Shows(hdrs, L.blocks) && Chain(hdrs, head, L.fl) && NextFree(L.blocks, a) &&
      n == Next(L.blocks, a)
    requires j < |L.fl| && L.fl[j] == n && (j > 0 ==> L.fl[j - 1] in hdrs)
    requires c == Next(L.blocks, n) && a in hdrs && n in hdrs && (c in L.blocks.tags ==> c in hdrs)
    requires s == L.blocks.tags[a].size + HDR + L.blocks.tags[n].size
    requires h == JoinedNext(hdrs, a, n, c, s, L.fl, j, c in L.blocks.tags) - {n}
    ensures Shows(h, Fuse(L.blocks, a)) && Chain(h, if j == 0 then a else head, L.fl[j := a])
  {
    hide Shows, JoinedNext, Tiled, BackTag;
    Neighbours(L, hdrs, a);
    LooseList(L, hdrs, a);
    JoinedNextEffect(hdrs, a, n, c, s, L.fl, j, c in L.blocks.tags);
    MergeNextShown(L, hdrs, h, a);
    SubstituteChain(hdrs, h, head, L.fl, j, a);
  }

  lemma JoinedBothDone(L: Layout, hdrs: map<nat, Hdr>, head: nat, a: nat, p: nat, n: nat, c: nat, s: nat, j: nat,
                       h: map<nat, Hdr>)
    requires Around(L, hdrs, a, p, n) && Chain(hdrs, head, L.fl) && PrevFree(L.blocks, a) && NextFree(L.blocks, a)
    requires j < |L.fl| && L.fl[j] == n && (j > 0 ==> L.fl[j - 1] in hdrs)
    requires c == Next(L.blocks, n) && p in hdrs && n in hdrs && (c in L.blocks.tags ==> c in hdrs)
    requires s == L.blocks.tags[p].size + HDR + L.blocks.tags[a].size + HDR + L.blocks.tags[n].size
    requires h == JoinedBoth(hdrs, p, n, c, s, L.fl, j, c in L.blocks.tags) - {a, n}
    ensures Shows(h, Fuse(Fuse(L.blocks, p), p)) && Chain(h, if j == 0 then hdrs[n].lom else head, RemoveAt(L.fl, j))
  {
    hide JoinedBoth, Tiled, Shows;
    Neighbours(L, hdrs, a);
    LooseList(L, hdrs, a);
    JoinedBothEffect(hdrs, p, a, n, c, s, L.fl, j, c in L.blocks.tags);
    MergeBothShown(L, hdrs, h, a);
    UnlinkChain(hdrs, h, head, L.fl, j);
  }

  /** The headers and the layout when `wdfree` hands block `a` to `coalesce`. */
  lemma FreedReady(L: Layout, hdrs: map<nat, Hdr>, h: map<nat, Hdr>, head: nat, a: nat)
    requires Sound(L) && Shows(hdrs, L.blocks) && Chain(hdrs, head, L.fl) && IsUsed(L.blocks, a) && a in hdrs
    requires h == Upd(Upd(hdrs, a, Sz, L.blocks.tags[a].size), a, Lom, 0)
    ensures Shows(h, Mark(L.blocks, a, true)) && Chain(h, head, L.fl)
    ensures Loose(Layout(Mark(L.blocks, a, true), L.fl), a)
  {
    var M := Mark(L.blocks, a, true);
    MarkTagged(L.blocks, a, true);
    assert BackTag(M, a);
    forall x | x in M.tags ensures ShownAt(h, M, x) { assert ShownAt(hdrs, L.blocks, x); }
    ChainFrame(hdrs, h, head, L.fl);
  }

  // ----- The headers after an in-place `wdrealloc`

  ghost function PlacedSplit(h: map<nat, Hdr>, g: nat, n: nat, r: nat, gone: set<nat>, b: nat, e: nat, head: nat,
                             more: bool): map<nat, Hdr>
    requires g in h && (more ==> e in h && e !in gone)
  {
    Told((Upd(Upd(h, g, Sz, n + ALLOC_BIT), g, Lom, MAGIC) - gone)[b := Hdr(n, r, head)], e, r, more)
  }

  ghost function PlacedWhole(h: map<nat, Hdr>, g: nat, s: nat, gone: set<nat>, e: nat, more: bool): map<nat, Hdr>
    requires g in h && (more ==> e in h)
  {
    Told(Upd(Upd(h, g, Sz, s + ALLOC_BIT), g, Lom, MAGIC), e, s, more) - gone
  }

  lemma PlacedSplitEffect(h: map<nat, Hdr>, g: nat, n: nat, r: nat, gone: set<nat>, b: nat, e: nat, head: nat,
                          more: bool, F: map<nat, Hdr>)
    requires g in h && g !in gone && (b in h ==> b in gone) && (more ==> e in h && e !in gone) && e != g && e != b
    requires F == PlacedSplit(h, g, n, r, gone, b, e, head, more)
    ensures F.Keys == h.Keys - gone + {b} && F[b] == Hdr(n, r, head)
    ensures forall x {:trigger F[x]} {:trigger x in F} :: x in h && x !in gone ==>
      F[x] == Hdr(if x == e && more then r else h[x].prev, if x == g then n + ALLOC_BIT else h[x].sz,
                  if x == g then MAGIC else h[x].lom)
  {
  }

  lemma PlacedWholeEffect(h: map<nat, Hdr>, g: nat, s: nat, gone: set<nat>, e: nat, more: bool, F: map<nat, Hdr>)
    requires g in h && g !in gone && (more ==> e in h) && e != g && F == PlacedWhole(h, g, s, gone, e, more)
    ensures F.Keys == h.Keys - gone
    ensures forall x {:trigger F[x]} {:trigger x in F} :: x in h && x !in gone ==>
      F[x] == Hdr(if x == e && more then s else h[x].prev, if x == g then s + ALLOC_BIT else h[x].sz,
                  if x == g then MAGIC else h[x].lom)
  {
  }

  /**
    What `wdrealloc` knows once it has chosen to grow in place and the freelist is `L.fl` without the chosen blocks.
   */
  ghost predicate Placing(L: Layout, h: map<nat, Hdr>, head: nat, a: nat, n: nat, c: Choice) {
    && Sound(L) && Shows(h, L.blocks) && IsUsed(L.blocks, a)
    && c == Choose(L.blocks, a, n) && c.Here? && Chain(h, head, Without(L.fl, c.rem0, c.rem1))
  }

  /** Geometry of the gathered block. */
  lemma PlacingRoom(L: Layout, h: map<nat, Hdr>, head: nat, a: nat, n: nat, c: Choice, e: nat)
    requires Placing(L, h, head, a, n, c) && e == c.start + HDR + c.avail
    ensures c.start in h && a in h && c.start !in Gone(a, c) && (c.start == a || a in Gone(a, c))
    ensures h[a].sz == L.blocks.tags[a].size + ALLOC_BIT && L.blocks.tags[a].size < ALLOC_BIT
    ensures L.blocks.start <= c.start <= a && Next(L.blocks, a) <= e <= L.blocks.end && c.avail < ALLOC_BIT
    ensures (c.start != a ==> c.start + HDR <= a)
    ensures (e in h <==> L.blocks.start <= e < L.blocks.end) && e !in Gone(a, c)
    ensures h.Keys == L.blocks.tags.Keys
    ensures forall x :: x in h && x !in Gone(a, c) && x != c.start ==> x + HDR <= c.start || e <= x
  {
    hide Gather, Choose, Tiled, Listed, BackTag;
    var B, G, g := L.blocks, Gather(L, c).blocks, c.start;
    GatherSound(L, a, n, c);
    ChosenTouch(B, a, n, c);
    SizesFit(B, a);
    SizesFit(G, g);
    assert ShownAt(h, B, a);
    PlacingApart(B, G, a, c, e);
    PlacingEnd(B, G, a, c, e);
  }

  lemma BlocksApart(B: Blocks, a: nat, b: nat)
    requires Tiled(B) && a in B.tags && b in B.tags && a != b
    ensures Next(B, a) <= b || Next(B, b) <= a
    ensures a + HDR <= Next(B, a) && b + HDR <= Next(B, b)
  {
    assert TileAt(B, a) && TileAt(B, b);
  }

  /** Where the gathered block lies: after the blocks before it and before the blocks after it. */
  lemma PlacingApart(B: Blocks, G: Blocks, a: nat, c: Choice, e: nat)
    requires c.Here? && a in B.tags && Gathered(B, a, c, G) && Tiled(G) && Tiled(B) && e == c.start + HDR + c.avail
    ensures c.start in G.tags && G.tags[c.start].size == c.avail
    ensures B.start <= c.start <= a && Next(B, a) <= e <= B.end && (c.start != a ==> c.start + HDR <= a)
    ensures forall x :: x in B.tags && x !in Gone(a, c) && x != c.start ==> x + HDR <= c.start || e <= x
  {
    var g := c.start;
    assert TileAt(G, g) && Next(G, g) == e && TileAt(B, g) && Next(B, g) >= g + HDR;
    forall x | x in B.tags && x !in Gone(a, c) && x != g ensures x + HDR <= g || e <= x {
      assert x in G.tags;
      BlocksApart(G, x, g);
    }
  }

  lemma PlacingEnd(B: Blocks, G: Blocks, a: nat, c: Choice, e: nat)
    requires c.Here? && a in B.tags && Gathered(B, a, c, G) && Tiled(G) && Tiled(B) && e == c.start + HDR + c.avail
    ensures e in B.tags <==> B.start <= e < B.end
    ensures e !in Gone(a, c)
  {
    assert TileAt(G, c.start) && Next(G, c.start) == e;
    if e in B.tags { assert TileAt(B, e) && Next(B, e) > e; }
  }

  lemma PlacedList(L: Layout, h: map<nat, Hdr>, F: map<nat, Hdr>, head: nat, a: nat, n: nat, c: Choice)
    requires Placing(L, h, head, a, n, c)
    requires forall x {:trigger x in F} :: x in h && x !in Gone(a, c) && x != c.start ==> x in F && F[x].lom == h[x].lom
    ensures Chain(F, head, Without(L.fl, c.rem0, c.rem1))
  {
    ChosenTouch(L.blocks, a, n, c);
    var fl := Without(L.fl, c.rem0, c.rem1);
    forall x | x in fl && x in h ensures x in F && F[x].lom == h[x].lom {
      assert x in L.fl && IsFree(L.blocks, x) && x != c.rem0 && x != c.rem1;
    }
    ChainFrame(h, F, head, fl);
  }

  lemma PlacedSplitShown(L: Layout, h: map<nat, Hdr>, head: nat, a: nat, n: nat, c: Choice, r: nat, b: nat, e: nat,
                         F: map<nat, Hdr>, G: Blocks)
    requires Placing(L, h, head, a, n, c) && c.avail == n + HDR + r && b == c.start + HDR + n &&
      e == c.start + HDR + c.avail
    requires c.start in h && (e in h ==> e !in Gone(a, c))
    requires F == PlacedSplit(h, c.start, n, r, Gone(a, c), b, e, head, e in h)
    requires G == Gather(L, c).blocks && G.tags[c.start].size == c.avail
    ensures Shows(F, Split(G, c.start, n, false, true))
    ensures Chain(F, b, [b] + Without(L.fl, c.rem0, c.rem1))
  {
    GatherSound(L, a, n, c);
    PlacingRoom(L, h, head, a, n, c, e);
    SplitAt(G, c.start, n, false, true, b);
    PlacedSplitEffect(h, c.start, n, r, Gone(a, c), b, e, head, e in h, F);
    PlacedSplitTags(L.blocks, h, a, c, n, r, b, e, F, G);
    PlacedList(L, h, F, head, a, n, c);
    PushChain(F, head, Without(L.fl, c.rem0, c.rem1), b);
  }

  lemma PlacedSplitTags(B: Blocks, h: map<nat, Hdr>, a: nat, c: Choice, n: nat, r: nat, b: nat, e: nat,
                        F: map<nat, Hdr>, G: Blocks)
    requires Shows(h, B) && a in B.tags && c.Here? && Gathered(B, a, c, G) && Tiled(G)
    requires c.avail == n + HDR + r && b == c.start + HDR + n && e == c.start + HDR + c.avail
    requires G.tags[c.start].size == c.avail
    requires F.Keys == h.Keys - Gone(a, c) + {b} && F[b].prev == n && F[b].sz == r
    requires forall x {:trigger F[x]} {:trigger x in F} :: x in h && x !in Gone(a, c) ==>
      F[x] == Hdr(if x == e then r else h[x].prev, if x == c.start then n + ALLOC_BIT else h[x].sz,
                  if x == c.start then MAGIC else h[x].lom)
    ensures Shows(F, Split(G, c.start, n, false, true))
  {
    hide Gone, Split, Tiled;
    var S := Split(G, c.start, n, false, true);
    forall x ensures x in S.tags <==> x in F { SplitAt(G, c.start, n, false, true, x); }
    forall x | x in S.tags ensures ShownAt(F, S, x) {
      SplitAt(G, c.start, n, false, true, x);
      if x != b { assert ShownAt(h, B, x); }
    }
  }

  lemma PlacedWholeShown(L: Layout, h: map<nat, Hdr>, head: nat, a: nat, n: nat, c: Choice, e: nat, F: map<nat, Hdr>)
    requires Placing(L, h, head, a, n, c) && e == c.start + HDR + c.avail && c.start in h
    requires F == PlacedWhole(h, c.start, c.avail, Gone(a, c), e, e in h)
    ensures Shows(F, Mark(Gather(L, c).blocks, c.start, false))
    ensures Chain(F, head, Without(L.fl, c.rem0, c.rem1))
  {
    hide Gather, Choose, Gone, Gathered, PlacedWhole, Mark, Tiled, Listed, BackTag, Without;
    var g := c.start;
    GatherSound(L, a, n, c);
    PlacingRoom(L, h, head, a, n, c, e);
    PlacedWholeEffect(h, g, c.avail, Gone(a, c), e, e in h, F);
    PlacedWholeTags(L.blocks, h, a, c, e, F, Gather(L, c).blocks);
    PlacedList(L, h, F, head, a, n, c);
  }

  lemma PlacedWholeTags(B: Blocks, h: map<nat, Hdr>, a: nat, c: Choice, e: nat, F: map<nat, Hdr>, G: Blocks)
    requires Shows(h, B) && a in B.tags && c.Here? && Gathered(B, a, c, G) && c.start in G.tags &&
      e == c.start + HDR + c.avail
    requires F.Keys == h.Keys - Gone(a, c)
    requires forall x {:trigger F[x]} {:trigger x in F} :: x in h && x !in Gone(a, c) ==>
      F[x] == Hdr(if x == e then c.avail else h[x].prev, if x == c.start then c.avail + ALLOC_BIT else h[x].sz,
                  if x == c.start then MAGIC else h[x].lom)
    ensures Shows(F, Mark(G, c.start, false))
  {
    hide Gone;
    var M := Mark(G, c.start, false);
    forall x | x in M.tags ensures ShownAt(F, M, x) { assert ShownAt(h, B, x); }
  }

  // ----- Frames

  /** Only headers and the payloads of free blocks and of the blocks in `X` differ; bytes outside the heap do not. */
  ghost predicate KeepsPayloads(m: seq<byte>, m': seq<byte>, B: Blocks, X: set<nat>) {
    && |m'| == |m|
    && (forall u: nat, x: int {:trigger IsUsed(B, u), m'[x]} ::
          IsUsed(B, u) && u !in X && u + HDR <= x < Next(B, u) && x < |m| ==> m'[x] == m[x])
    && (forall x {:trigger m'[x]} :: 0 <= x < |m| && !(B.start <= x < B.end) ==> m'[x] == m[x])
  }

  lemma PayloadClear(B: Blocks, u: nat, x: int)
    requires Tiled(B) && u in B.tags && u + HDR <= x < Next(B, u)
    ensures Clear(B.tags.Keys, x)
  {
    assert TileAt(B, u);
    forall h | h in B.tags ensures !(h <= x < h + HDR) { assert TileAt(B, h) && Next(B, h) >= h + HDR; }
  }

  lemma OutsideClear(B: Blocks, x: int)
    requires Tiled(B) && !(B.start <= x < B.end)
    ensures Clear(B.tags.Keys, x)
  {
    forall h | h in B.tags ensures !(h <= x < h + HDR) { assert TileAt(B, h) && Next(B, h) >= h + HDR; }
  }

  lemma KeepsFromFrames(m: seq<byte>, m': seq<byte>, B: Blocks)
    requires Tiled(B) && Frames(m, m', B.tags.Keys)
    ensures KeepsPayloads(m, m', B, {})
  {
    forall u: nat, x: int | IsUsed(B, u) && u + HDR <= x < Next(B, u) && x < |m| ensures m'[x] == m[x] {
      PayloadClear(B, u, x);
    }
    forall x | 0 <= x < |m| && !(B.start <= x < B.end) ensures m'[x] == m[x] { OutsideClear(B, x); }
  }

  /** The same with one more header, carved out of block `a`. */
  lemma KeepsFromSplit(m: seq<byte>, m': seq<byte>, B: Blocks, a: nat, b: nat)
    requires Tiled(B) && a in B.tags && a + HDR <= b && b + HDR <= Next(B, a)
    requires Frames(m, m', B.tags.Keys + {b})
    ensures KeepsPayloads(m, m', B, if IsFree(B, a) then {} else {a})
  {
    assert TileAt(B, a);
    forall u: nat, x: int | IsUsed(B, u) && u != a && u + HDR <= x < Next(B, u) && x < |m| ensures m'[x] == m[x] {
      PayloadClear(B, u, x);
      assert TileAt(B, u);
      assert Clear(B.tags.Keys + {b}, x);
    }
    forall x | 0 <= x < |m| && !(B.start <= x < B.end) ensures m'[x] == m[x] {
      OutsideClear(B, x);
      assert Clear(B.tags.Keys + {b}, x);
    }
  }

  lemma FramesRefl(m: seq<byte>, K: set<nat>)
    ensures Frames(m, m, K)
  {
  }

  lemma FramesTrans(m: seq<byte>, m': seq<byte>, m'': seq<byte>, K: set<nat>, K': set<nat>)
    requires Frames(m, m', K) && Frames(m', m'', K') && K <= K'
    ensures Frames(m, m'', K')
  {
    forall x | 0 <= x < |m| && Clear(K', x) ensures m''[x] == m[x] { assert Clear(K, x) && m'[x] == m[x]; }
  }

  // ----- Moving payload bytes

  lemma HoldsCopied(m: seq<byte>, hdrs: map<nat, Hdr>, to: nat, from: nat, n: nat)
    requires Holds(m, hdrs) && to + n <= |m| && from + n <= |m|
    requires forall x :: x in hdrs ==> x + HDR <= to || to + n <= x
    ensures Holds(Copied(m, to, from, n), hdrs)
  {
    var m' := Copied(m, to, from, n);
    forall x | x in hdrs ensures HeldAt(m', hdrs, x) {
      assert HeldAt(m, hdrs, x);
      SameSlice(m', m, x, x + HDR);
    }
  }

  /** Outside the headers at `K`, only bytes of `[lo, hi)` differ. */
  ghost predicate MovedWithin(m: seq<byte>, m': seq<byte>, K: set<nat>, lo: nat, hi: nat) {
    |m'| == |m| && forall x {:trigger m'[x]} :: 0 <= x < |m| && Clear(K, x) && !(lo <= x < hi) ==> m'[x] == m[x]
  }

  /** Bytes `[lo, lo + s)` of `m'` are bytes `[from, from + s)` of `m`. */
  ghost predicate Carried(m: seq<byte>, m': seq<byte>, lo: nat, from: nat, s: nat) {
    lo + s <= |m'| && from + s <= |m| && forall x {:trigger m'[x]} :: lo <= x < lo + s ==> m'[x] == m[from + (x - lo)]
  }

  ghost predicate ClearRange(K: set<nat>, lo: nat, hi: nat) {
    forall x {:trigger Clear(K, x)} :: lo <= x < hi ==> Clear(K, x)
  }

  /** Two header writes, a move of `s` bytes down to `to`, more header writes: the net effect on the bytes. */
  lemma MoveBetween(m0: seq<byte>, m1: seq<byte>, m2: seq<byte>, m3: seq<byte>, K: set<nat>, K': set<nat>,
                    to: nat, from: nat, n: nat, s: nat, lo: nat, hi: nat)
    requires Frames(m0, m1, K) && Frames(m2, m3, K')
    requires to + n <= |m1| && from + n <= |m1| && m2 == Copied(m1, to, from, n) && s <= n
    requires lo <= to && to + n <= hi && (forall x :: x in K' ==> x in K || (lo <= x && x + HDR <= hi))
    requires ClearRange(K, from, from + s) && ClearRange(K', to, to + s)
    ensures Carried(m0, m3, to, from, s)
    ensures MovedWithin(m0, m3, K, lo, hi)
  {
    forall x | to <= x < to + s ensures m3[x] == m0[from + (x - to)] {
      assert Clear(K', x) && Clear(K, from + (x - to));
      assert m3[x] == m2[x] == m1[from + (x - to)];
    }
    forall x | 0 <= x < |m0| && Clear(K, x) && !(lo <= x < hi) ensures m3[x] == m0[x] {
      assert Clear(K', x) && m3[x] == m2[x] == m1[x];
    }
  }

  /** The start of the placed block's payload holds no header. */
  lemma PlacedClear(K: set<nat>, g: nat, s: nat, e: nat, b: nat)
    requires g + HDR + s <= e && g + HDR + s <= b
    requires forall x :: x in K && x != g && x != b ==> x + HDR <= g || e <= x
    ensures ClearRange(K, g + HDR, g + HDR + s)
  {
  }

  lemma DroppedPlacing(L: Layout, hdrs: map<nat, Hdr>, h: map<nat, Hdr>, head: nat, a: nat, n: nat, c: Choice)
    requires Sound(L) && Shows(hdrs, L.blocks) && IsUsed(L.blocks, a) && c == Choose(L.blocks, a, n) && c.Here?
    requires LinksOnly(hdrs, h, L.fl) && Chain(h, head, Without(L.fl, c.rem0, c.rem1))
    ensures Placing(L, h, head, a, n, c)
  {
    assert Relinked(hdrs, h, L.blocks) by {
      forall x | x in L.blocks.tags && !L.blocks.tags[x].free ensures x !in L.fl { assert !IsFree(L.blocks, x); }
    }
    RelinkedShows(hdrs, h, L.blocks);
  }

  /** The freelist head is an address, and the old payload holds no header. */
  lemma PlacingClear(L: Layout, h: map<nat, Hdr>, head: nat, a: nat, n: nat, c: Choice)
    requires Placing(L, h, head, a, n, c)
    ensures head < L.blocks.end && ClearRange(h.Keys, a + HDR, a + HDR + L.blocks.tags[a].size)
  {
    var fl := Without(L.fl, c.rem0, c.rem1);
    if fl != [] {
      assert fl[0] in fl && fl[0] in L.fl && IsFree(L.blocks, fl[0]);
      assert TileAt(L.blocks, fl[0]) && Next(L.blocks, fl[0]) > fl[0];
    }
    forall x | a + HDR <= x < a + HDR + L.blocks.tags[a].size ensures Clear(h.Keys, x) { PayloadClear(L.blocks, a, x); }
  }

  /** Growing in place leaves every other live payload and everything outside the heap alone. */
  lemma PlacedKeeps(L: Layout, m0: seq<byte>, m1: seq<byte>, m2: seq<byte>, a: nat, n: nat, c: Choice)
    requires Sound(L) && IsUsed(L.blocks, a) && c == Choose(L.blocks, a, n) && c.Here?
    requires Frames(m0, m1, L.blocks.tags.Keys) && L.blocks.end <= |m0|
    requires MovedWithin(m1, m2, L.blocks.tags.Keys, c.start, c.start + HDR + c.avail)
    ensures KeepsPayloads(m0, m2, L.blocks, {a})
    ensures forall x {:trigger m1[x]} :: a + HDR <= x < Next(L.blocks, a) ==> m1[x] == m0[x]
  {
    hide Listed, Gather;
    var B, G, e := L.blocks, Gather(L, c).blocks, c.start + HDR + c.avail;
    GatherSound(L, a, n, c);
    ChosenTouch(B, a, n, c);
    assert TileAt(G, c.start) && Next(G, c.start) == e && TileAt(B, a);
    forall u: nat, x: int | IsUsed(B, u) && u != a && u + HDR <= x < Next(B, u) && x < |m0| ensures m2[x] == m0[x] {
      PayloadClear(B, u, x);
      assert u in G.tags && TileAt(G, u) && Next(G, u) == Next(B, u);
      assert m1[x] == m0[x];
    }
    forall x | 0 <= x < |m0| && !(B.start <= x < B.end) ensures m2[x] == m0[x] {
      OutsideClear(B, x);
      assert m1[x] == m0[x];
    }
    forall x | a + HDR <= x < Next(B, a) ensures m1[x] == m0[x] { PayloadClear(B, a, x); }
  }

  // ----- The headers during a shrinking `wdrealloc`

  /** `Split` before the block after the new header learns of it. */
  ghost function RawSplit(B: Blocks, a: nat, n: nat): (R: Blocks)
    requires a in B.tags && n + HDR <= B.tags[a].size
    ensures R.start == B.start && R.end == B.end && a + HDR + n in R.tags
  {
    B.(tags := B.tags[a := B.tags[a].(size := n)][a + HDR + n := Tag(n, B.tags[a].size - n - HDR, true)])
  }

  lemma RawSplitAt(B: Blocks, a: nat, n: nat, x: nat)
    requires Tiled(B) && IsUsed(B, a) && n + HDR <= B.tags[a].size
    ensures var R := RawSplit(B, a, n); var S := Split(B, a, n, false, true);
      && (x in R.tags <==> x in S.tags)
      && (x in R.tags ==>
          && R.tags[x].size == S.tags[x].size && R.tags[x].free == S.tags[x].free
          && R.tags[x].prev == if x == Next(B, a) then B.tags[x].prev else S.tags[x].prev)
  {
    SplitAt(B, a, n, false, true, x);
    assert TileAt(B, a);
  }

  lemma RawSplitTiled(B: Blocks, a: nat, n: nat)
    requires Tagged(B) && IsUsed(B, a) && n + HDR <= B.tags[a].size
    ensures Tiled(RawSplit(B, a, n))
  {
    hide Split, RawSplit;
    var R, S := RawSplit(B, a, n), Split(B, a, n, false, true);
    SplitTagged(B, a, n, false, true);
    forall x ensures x in R.tags <==> x in S.tags { RawSplitAt(B, a, n, x); }
    forall x | x in R.tags ensures TileAt(R, x) {
      RawSplitAt(B, a, n, x);
      assert TileAt(S, x) && Next(R, x) == Next(S, x);
    }
  }

  lemma RawSplitLoose(L: Layout, a: nat, n: nat, b: nat)
    requires Sound(L) && IsUsed(L.blocks, a) && n + HDR <= L.blocks.tags[a].size && b == a + HDR + n
    ensures Loose(Layout(RawSplit(L.blocks, a, n), L.fl), b)
  {
    var B, R := L.blocks, RawSplit(L.blocks, a, n);
    RawSplitTiled(B, a, n);
    assert TileAt(B, a) && b > a;
    SplitAt(B, a, n, false, true, b);
    assert BackTag(R, b);
    forall y ensures y in L.fl <==> IsFree(R, y) && y != b { assert y in L.fl <==> IsFree(B, y); }
  }

  lemma RawSplitReady(L: Layout, hdrs: map<nat, Hdr>, h: map<nat, Hdr>, head: nat, a: nat, n: nat, b: nat)
    requires Sound(L) && IsUsed(L.blocks, a) && n + HDR <= L.blocks.tags[a].size && b == a + HDR + n
    requires Shows(hdrs, L.blocks) && Chain(hdrs, head, L.fl) && a in hdrs
    requires h == Upd(hdrs, a, Sz, n + ALLOC_BIT)[b := Hdr(n, L.blocks.tags[a].size - HDR - n, 0)]
    ensures Shows(h, RawSplit(L.blocks, a, n)) && Chain(h, head, L.fl)
    ensures Loose(Layout(RawSplit(L.blocks, a, n), L.fl), b)
  {
    hide Tiled;
    RawSplitLoose(L, a, n, b);
    var R := RawSplit(L.blocks, a, n);
    SplitAt(L.blocks, a, n, false, true, b);
    forall x | x in R.tags ensures ShownAt(h, R, x) {
      if x != b { assert ShownAt(hdrs, L.blocks, x); }
    }
    forall x | x in L.fl ensures x != b { assert IsFree(L.blocks, x); }
    ChainFrame(hdrs, h, head, L.fl);
  }

  lemma FuseRaw(B: Blocks, a: nat, n: nat, b: nat, F: Blocks)
    requires Tiled(B) && IsUsed(B, a) && n + HDR <= B.tags[a].size && b == a + HDR + n && Next(B, a) in B.tags
    requires b in RawSplit(B, a, n).tags && b in Split(B, a, n, false, true).tags && F == Fuse(RawSplit(B, a, n), b)
    ensures b in F.tags && F == Fuse(Split(B, a, n, false, true), b)
    ensures WithPrev(F, Next(F, b), F.tags[b].size) == F
  {
    var R, S, c := RawSplit(B, a, n), Split(B, a, n, false, true), Next(B, a);
    assert TileAt(B, a) && TileAt(B, c);
    assert b !in B.tags && c != a && c != b;
    assert Next(R, b) == c && Next(S, b) == c;
    assert R.tags - {c} == S.tags - {c};
    var e := Next(F, b);
    if e in F.tags {
      assert F.tags[e].prev == F.tags[b].size;
      assert F.tags[e := F.tags[e].(prev := F.tags[b].size)] == F.tags;
    }
  }

  /** Seen from the new header, both ways of splitting look alike. */
  lemma RawSplitAround(B: Blocks, a: nat, n: nat, b: nat, R: Blocks, S: Blocks)
    requires Tiled(B) && IsUsed(B, a) && n + HDR <= B.tags[a].size && b == a + HDR + n
    requires R == RawSplit(B, a, n) && S == Split(B, a, n, false, true)
    ensures b !in B.tags && R.tags.Keys == S.tags.Keys == B.tags.Keys + {b} && IsFree(R, b) && IsFree(S, b)
    ensures !PrevFree(R, b) && !PrevFree(S, b) && Next(R, b) == Next(S, b) == Next(B, a)
    ensures NextFree(R, b) == NextFree(S, b) == NextFree(B, a)
    ensures WithPrev(R, Next(B, a), R.tags[b].size) == S
  {
    SplitAt(B, a, n, false, true, b);
    assert TileAt(B, a);
    assert Prev(R, b) == a && Prev(S, b) == a;
  }

  /** The new free block swallows its successor: the unfinished tag goes with the swallowed header. */
  lemma ShrinkFused(B: Blocks, a: nat, n: nat, b: nat, R: Blocks, S: Blocks)
    requires Tiled(B) && Tiled(R) && IsUsed(B, a) && n + HDR <= B.tags[a].size && b == a + HDR + n && NextFree(B, a)
    requires R == RawSplit(B, a, n) && S == Split(B, a, n, false, true) && b in R.tags && b in S.tags
    ensures IsFree(Fuse(R, b), b) && Tiled(Fuse(R, b)) && Fuse(R, b).tags.Keys <= R.tags.Keys
    ensures Fuse(S, b) == WithPrev(Fuse(R, b), Next(Fuse(R, b), b), Fuse(R, b).tags[b].size)
  {
    hide Fuse, WithPrev;
    RawSplitAround(B, a, n, b, R, S);
    FuseTiled(R, b);
    forall x | x in Fuse(R, b).tags ensures x in R.tags { FuseAt(R, b, x); }
    FuseAt(R, b, b);
    FuseRaw(B, a, n, b, Fuse(R, b));
  }

  /** `coalesce` followed by telling the next block amounts to splitting properly and then coalescing. */
  lemma ShrinkFix(L: Layout, C: Layout, a: nat, n: nat, b: nat)
    requires Sound(L) && IsUsed(L.blocks, a) && n + SLACK <= L.blocks.tags[a].size && b == a + HDR + n
    requires b in RawSplit(L.blocks, a, n).tags && C == Coalesce(Layout(RawSplit(L.blocks, a, n), L.fl), b)
    ensures b in C.blocks.tags && C.blocks.tags[b].free && Tiled(C.blocks)
    ensures C.blocks.tags.Keys <= L.blocks.tags.Keys + {b}
    ensures Shrink(L, a, n) == Layout(WithPrev(C.blocks, Next(C.blocks, b), C.blocks.tags[b].size), C.fl)
  {
    hide Fuse, Split, RawSplit, WithPrev, Tiled, BackTag, Listed, Replace;
    var R, S := RawSplit(L.blocks, a, n), Split(L.blocks, a, n, false, true);
    RawSplitTiled(L.blocks, a, n);
    RawSplitAround(L.blocks, a, n, b, R, S);
    if NextFree(L.blocks, a) {
      ShrinkFused(L.blocks, a, n, b, R, S);
    }
  }

  lemma ShownThere(hdrs: map<nat, Hdr>, B: Blocks, a: nat)
    requires Shows(hdrs, B) && Measured(B) && Tiled(B) && IsFree(B, a)
    ensures a in hdrs && hdrs[a].sz == B.tags[a].size < ALLOC_BIT
    ensures Next(B, a) in hdrs <==> B.start <= Next(B, a) < B.end
    ensures hdrs.Keys == B.tags.Keys
  {
    assert ShownAt(hdrs, B, a);
    SizesFit(B, a);
  }

  lemma ToldShows(hdrs: map<nat, Hdr>, B: Blocks, e: nat, v: nat, h: map<nat, Hdr>)
    requires Shows(hdrs, B) && h == Told(hdrs, e, v, e in hdrs)
    ensures Shows(h, WithPrev(B, e, v))
    ensures forall x {:trigger h[x]} :: x in hdrs ==> x in h && h[x].lom == hdrs[x].lom
  {
    var W := WithPrev(B, e, v);
    forall x | x in W.tags ensures ShownAt(h, W, x) { assert ShownAt(hdrs, B, x); }
  }

  lemma FramesWiden(m: seq<byte>, m': seq<byte>, K: set<nat>, K': set<nat>)
    requires Frames(m, m', K) && K <= K'
    ensures Frames(m, m', K')
  {
    forall x | 0 <= x < |m| && Clear(K', x) ensures m'[x] == m[x] { assert Clear(K, x); }
  }

  // ----- The headers and bytes of a `wdrealloc` that moves

  /** What the code reads off the tags around a used block. */
  lemma NeighboursUsed(L: Layout, hdrs: map<nat, Hdr>, a: nat)
    requires Sound(L) && Shows(hdrs, L.blocks) && IsUsed(L.blocks, a)
    ensures a in hdrs && hdrs[a].prev == L.blocks.tags[a].prev && hdrs[a].sz == L.blocks.tags[a].size + ALLOC_BIT
    ensures L.blocks.start <= Prev(L.blocks, a) < L.blocks.end <==> Prev(L.blocks, a) in L.blocks.tags
    ensures L.blocks.start <= Next(L.blocks, a) < L.blocks.end <==> Next(L.blocks, a) in L.blocks.tags
    ensures forall x :: x in L.blocks.tags && (x == Prev(L.blocks, a) || x == Next(L.blocks, a)) ==>
      x in hdrs && hdrs[x].sz == Raw(L.blocks.tags[x]) && L.blocks.tags[x].size < ALLOC_BIT
  {
    var B := L.blocks;
    assert ShownAt(hdrs, B, a) && TileAt(B, a) && BackTag(B, a);
    SizesFit(B, a);
    forall x | x in B.tags && (x == Prev(B, a) || x == Next(B, a))
      ensures x in hdrs && hdrs[x].sz == Raw(B.tags[x]) && B.tags[x].size < ALLOC_BIT && B.start <= x < B.end
    {
      assert ShownAt(hdrs, B, x) && TileAt(B, x) && Next(B, x) > x;
      SizesFit(B, x);
    }
  }

  /** Distinct blocks have disjoint payloads, free of headers. */
  lemma MoveReady(M: Layout, to: nat, from: nat, n: nat)
    requires Sound(M) && to in M.blocks.tags && from in M.blocks.tags && to != from
    requires n <= M.blocks.tags[to].size && n <= M.blocks.tags[from].size
    ensures !Overlaps(to + HDR, from + HDR, n) && to + HDR + n <= M.blocks.end && from + HDR + n <= M.blocks.end
    ensures forall x :: x in M.blocks.tags ==> x + HDR <= to + HDR || to + HDR + n <= x
  {
    assert TileAt(M.blocks, to) && TileAt(M.blocks, from);
    SizesFit(M.blocks, to);
    SizesFit(M.blocks, from);
  }

  lemma KeepsMore(m: seq<byte>, m': seq<byte>, B: Blocks, X: set<nat>)
    requires KeepsPayloads(m, m', B, {})
    ensures KeepsPayloads(m, m', B, X)
  {
  }

  /** What is known when `wdrealloc` has allocated, copied and freed: `M` is the layout in between. */
  ghost predicate Moved(L: Layout, M: Layout, r: nat, m0: seq<byte>, m1: seq<byte>, m2: seq<byte>, m3: seq<byte>,
                        a: nat)
    requires IsUsed(L.blocks, a)
  {
    && HDR <= r && r + L.blocks.tags[a].size <= |m1| && a + HDR + L.blocks.tags[a].size <= |m1|
    && m2 == Copied(m1, r, a + HDR, L.blocks.tags[a].size)
    && KeepsPayloads(m0, m1, L.blocks, {}) && KeepsPayloads(m2, m3, M.blocks, {})
  }

  lemma MovedElsewhere(L: Layout, n: nat, r: nat, m0: seq<byte>, m1: seq<byte>, m2: seq<byte>, m3: seq<byte>, a: nat)
    requires Sound(L) && IsUsed(L.blocks, a) && L.blocks.tags[a].size < n && r == Malloc(L, n).1 != 0
    requires L.blocks.end <= |m0| && Moved(L, Malloc(L, n).0, r, m0, m1, m2, m3, a)
    ensures KeepsPayloads(m0, m3, L.blocks, {a})
    ensures Carried(m0, m3, r, a + HDR, L.blocks.tags[a].size)
  {
    hide Malloc, Sound, Moved, KeepsPayloads, Carried;
    var M := Malloc(L, n).0;
    MallocSound(L, n);
    MallocUsed(L, n, r - HDR);
    LiveBounds(M, r - HDR);
    LiveBounds(L, a);
    forall u: nat, x: int | IsUsed(L.blocks, u) && u != a && u + HDR <= x < Next(L.blocks, u) && x < |m0|
      ensures |m3| == |m0| && m3[x] == m0[x]
    {
      MallocUsed(L, n, u);
      MovedOther(L, M, r, m0, m1, m2, m3, a, u, x);
    }
    forall x | 0 <= x < |m0| && !(L.blocks.start <= x < L.blocks.end) ensures |m3| == |m0| && m3[x] == m0[x] {
      MovedOutside(L, M, r, m0, m1, m2, m3, a, x);
    }
    MovedLength(L, M, r, m0, m1, m2, m3, a);
    KeepsOf(m0, m3, L.blocks, a);
    MovedOwn(L, M, r, m0, m1, m2, m3, a);
  }

  lemma KeepsOf(m: seq<byte>, m': seq<byte>, B: Blocks, a: nat)
    requires |m'| == |m|
    requires forall u: nat, x: int {:trigger IsUsed(B, u), m'[x]} ::
      IsUsed(B, u) && u != a && u + HDR <= x < Next(B, u) && x < |m| ==> m'[x] == m[x]
    requires forall x {:trigger m'[x]} :: 0 <= x < |m| && !(B.start <= x < B.end) ==> m'[x] == m[x]
    ensures KeepsPayloads(m, m', B, {a})
  {
  }

  lemma MovedLength(L: Layout, M: Layout, r: nat, m0: seq<byte>, m1: seq<byte>, m2: seq<byte>, m3: seq<byte>, a: nat)
    requires IsUsed(L.blocks, a) && Moved(L, M, r, m0, m1, m2, m3, a)
    ensures |m3| == |m2| == |m1| == |m0|
  {
  }

  lemma MovedOther(L: Layout, M: Layout, r: nat, m0: seq<byte>, m1: seq<byte>, m2: seq<byte>, m3: seq<byte>, a: nat,
                   u: nat, x: int)
    requires IsUsed(L.blocks, a) && Moved(L, M, r, m0, m1, m2, m3, a) && Sound(M)
    requires IsUsed(M.blocks, r - HDR) && L.blocks.tags[a].size <= M.blocks.tags[r - HDR].size
    requires IsUsed(L.blocks, u) && IsUsed(M.blocks, u) && u != r - HDR
    requires M.blocks.tags[u].size == L.blocks.tags[u].size
    requires u + HDR <= x < Next(L.blocks, u) && x < |m0|
    ensures |m3| == |m0| && m3[x] == m0[x]
  {
    hide KeepsPayloads, Copied;
    MovedLength(L, M, r, m0, m1, m2, m3, a);
    BlocksApart(M.blocks, u, r - HDR);
    PayloadByte(m0, m1, L.blocks, u, x);
    CopiedAt(m1, r, a + HDR, L.blocks.tags[a].size, m2);
    PayloadByte(m2, m3, M.blocks, u, x);
  }

  lemma MovedOutside(L: Layout, M: Layout, r: nat, m0: seq<byte>, m1: seq<byte>, m2: seq<byte>, m3: seq<byte>, a: nat,
                     x: nat)
    requires IsUsed(L.blocks, a) && Moved(L, M, r, m0, m1, m2, m3, a) && Sound(M)
    requires M.blocks.start == L.blocks.start && M.blocks.end == L.blocks.end
    requires IsUsed(M.blocks, r - HDR) && L.blocks.tags[a].size <= M.blocks.tags[r - HDR].size
    requires x < |m0| && !(L.blocks.start <= x < L.blocks.end)
    ensures |m3| == |m0| && m3[x] == m0[x]
  {
    hide Copied;
    LiveBounds(M, r - HDR);
    CopiedAt(m1, r, a + HDR, L.blocks.tags[a].size, m2);
    assert m3[x] == m2[x] == m1[x];
  }

  lemma MovedOwn(L: Layout, M: Layout, r: nat, m0: seq<byte>, m1: seq<byte>, m2: seq<byte>, m3: seq<byte>, a: nat)
    requires IsUsed(L.blocks, a) && Moved(L, M, r, m0, m1, m2, m3, a)
    requires IsUsed(M.blocks, r - HDR) && L.blocks.tags[a].size <= M.blocks.tags[r - HDR].size
    ensures Carried(m0, m3, r, a + HDR, L.blocks.tags[a].size)
  {
    hide KeepsPayloads, Copied;
    MovedLength(L, M, r, m0, m1, m2, m3, a);
    CopiedAt(m1, r, a + HDR, L.blocks.tags[a].size, m2);
    forall x | r <= x < r + L.blocks.tags[a].size ensures m3[x] == m0[a + HDR + (x - r)] {
      PayloadByte(m2, m3, M.blocks, r - HDR, x);
      PayloadByte(m0, m1, L.blocks, a, a + HDR + (x - r));
    }
  }

  lemma PayloadByte(m: seq<byte>, m': seq<byte>, B: Blocks, u: nat, x: int)
    requires KeepsPayloads(m, m', B, {}) && IsUsed(B, u) && u + HDR <= x < Next(B, u) && x < |m|
    ensures m'[x] == m[x]
  {
  }

  lemma LiveBounds(L: Layout, a: nat)
    requires Sound(L) && a in L.blocks.tags
    ensures L.blocks.start <= a && Next(L.blocks, a) <= L.blocks.end
  {
    assert TileAt(L.blocks, a);
  }

  lemma CopiedAt(m: seq<byte>, to: nat, from: nat, n: nat, m': seq<byte>)
    requires to + n <= |m| && from + n <= |m| && m' == Copied(m, to, from, n)
    ensures |m'| == |m|
    ensures forall x {:trigger m'[x]} :: 0 <= x < |m| ==> m'[x] == if to <= x < to + n then m[from + (x - to)] else m[x]
  {
  }

  lemma ShrunkKeeps(L: Layout, m: seq<byte>, m': seq<byte>, a: nat, n: nat)
    requires Sound(L) && IsUsed(L.blocks, a) && n + HDR <= L.blocks.tags[a].size && L.blocks.end <= |m|
    requires Frames(m, m', L.blocks.tags.Keys + {a + HDR + n})
    ensures KeepsPayloads(m, m', L.blocks, {a}) && Carried(m, m', a + HDR, a + HDR, n)
  {
    KeepsFromSplit(m, m', L.blocks, a, a + HDR + n);
    assert TileAt(L.blocks, a);
    forall x | a + HDR <= x < a + HDR + n ensures m'[x] == m[x] {
      PayloadClear(L.blocks, a, x);
      assert Clear(L.blocks.tags.Keys + {a + HDR + n}, x);
    }
  }

  lemma KeepsRefl(m: seq<byte>, B: Blocks, X: set<nat>)
    ensures KeepsPayloads(m, m, B, X)
  {
  }

  lemma CarriedRefl(L: Layout, m: seq<byte>, a: nat, n: nat)
    requires Sound(L) && IsUsed(L.blocks, a) && n <= L.blocks.tags[a].size && L.blocks.end <= |m|
    ensures Carried(m, m, a + HDR, a + HDR, n)
  {
    assert TileAt(L.blocks, a) && Next(L.blocks, a) <= L.blocks.end;
  }
}
