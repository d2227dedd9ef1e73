/**
  The layout of a `wdmalloc` heap: which blocks tile the region, what their boundary tags say,
  and in which order the free ones hang off the freelist.  Addresses are absolute.
 */
module HeapLayout {

  /** A header without its link-or-magic word; `size` excludes the alloc bit. */
  datatype Tag = Tag(prev: nat, size: nat, free: bool)

  /** The blocks of the region `[start, end)`: each header's address and its tag. */
  datatype Blocks = Blocks(start: nat, end: nat, tags: map<nat, Tag>)

  /** The blocks, and the freelist from its head. */
  datatype Layout = Layout(blocks: Blocks, fl: seq<nat>)

  const HDR: nat := 12         // sizeof(wdmalloc_hdr_t)
  const SLACK: nat := 16       // the smallest surplus wdrealloc splits off
  const MAX_HEAP: nat := 32779 // 12 + the largest size the 15 size bits hold

  ghost function Next(B: Blocks, a: nat): nat
    requires a in B.tags
  {
    a + HDR + B.tags[a].size
  }

  ghost function Prev(B: Blocks, a: nat): int
    requires a in B.tags
  {
    a - B.tags[a].prev - HDR
  }

  ghost predicate NextFree(B: Blocks, a: nat)
    requires a in B.tags
  {
    Next(B, a) in B.tags && B.tags[Next(B, a)].free
  }

  ghost predicate PrevFree(B: Blocks, a: nat)
    requires a in B.tags
  {
    Prev(B, a) in B.tags && B.tags[Prev(B, a)].free
  }

  // ----- Room to grow next to a block

  /** Block `a` and the free block after it hold `n` bytes together. */
  ghost predicate RoomNext(B: Blocks, a: nat, n: nat)
    requires a in B.tags
  {
    NextFree(B, a) && B.tags[a].size + 12 + B.tags[Next(B, a)].size >= n
  }

  /** Block `a` and the free block before it do. */
  ghost predicate RoomPrev(B: Blocks, a: nat, n: nat)
    requires a in B.tags
  {
    PrevFree(B, a) && B.tags[Prev(B, a)].size + 12 + B.tags[a].size >= n
  }

  /** Block `a` and the free blocks on both sides do. */
  ghost predicate RoomBoth(B: Blocks, a: nat, n: nat)
    requires a in B.tags
  {
    && NextFree(B, a) && PrevFree(B, a)
    && B.tags[Prev(B, a)].size + 12 + B.tags[a].size + 12 + B.tags[Next(B, a)].size >= n
  }

  ghost predicate RoomBeside(B: Blocks, a: nat, n: nat)
    requires a in B.tags
  {
    RoomNext(B, a, n) || RoomPrev(B, a, n) || RoomBoth(B, a, n)
  }

  // ----- What a sound heap looks like

  /** Block `a` lies in the heap, and the next header, if any, starts where `a` ends. */
  ghost predicate TileAt(B: Blocks, a: nat)
    requires a in B.tags
  {
    && B.start <= a
    && (Next(B, a) == B.end || (Next(B, a) < B.end && Next(B, a) in B.tags))
    && forall b :: b in B.tags && a < b ==> Next(B, a) <= b
  }

  /** Blocks follow each other without gap or overlap from `start` to `end`. */
  ghost predicate Tiled(B: Blocks) {
    && B.start in B.tags
    && forall a {:trigger TileAt(B, a)} {:trigger Next(B, a)} :: a in B.tags ==> TileAt(B, a)
  }

  /** The tag of `a` names the true size of the block before it, 0 for the first block. */
  ghost predicate BackTag(B: Blocks, a: nat)
    requires a in B.tags
  {
    if a == B.start then B.tags[a].prev == 0
    else Prev(B, a) in B.tags && B.tags[Prev(B, a)].size == B.tags[a].prev
  }

  /** Tiling and boundary tags together. */
  ghost predicate Tagged(B: Blocks) {
    && Tiled(B)
    && forall a {:trigger BackTag(B, a)} :: a in B.tags ==> BackTag(B, a)
  }

  ghost predicate IsFree(B: Blocks, a: nat) {
    a in B.tags && B.tags[a].free
  }

  ghost predicate IsUsed(B: Blocks, a: nat) {
    a in B.tags && !B.tags[a].free
  }

  ghost predicate NoFreePair(B: Blocks) {
    forall a {:trigger NextFree(B, a)} :: IsFree(B, a) ==> !NextFree(B, a)
  }

  ghost predicate Distinct(s: seq<nat>) {
    forall i, j :: 0 <= i < j < |s| ==> s[i] != s[j]
  }

  /** The freelist holds exactly the free blocks, each once. */
  ghost predicate Listed(L: Layout) {
    && Distinct(L.fl)
    && forall a :: a in L.fl <==> IsFree(L.blocks, a)
  }

  /** The bounds within which the 15 size bits hold every size. */
  ghost predicate Measured(B: Blocks) {
    0 < B.start && B.start + HDR < B.end <= B.start + MAX_HEAP
  }

  ghost predicate Sound(L: Layout) {
    Measured(L.blocks) && Tagged(L.blocks) && Listed(L)
  }

  /** `p` is a pointer the allocator handed out. */
  ghost predicate Live(L: Layout, p: nat) {
    HDR <= p && IsUsed(L.blocks, p - HDR)
  }

  // ----- Sequences of addresses

  ghost function Pos(s: seq<nat>, x: nat): (j: nat)
    ensures j <= |s|
    ensures j < |s| ==> s[j] == x
    ensures x !in s[..j]
    ensures j < |s| <==> x in s
  {
    if s == [] || s[0] == x then 0
    else
      var j := 1 + Pos(s[1..], x);
      assert s[..j] == [s[0]] + s[1..][..j - 1];
      j
  }

  ghost function RemoveAt(s: seq<nat>, j: nat): (r: seq<nat>)
    requires j < |s|
  {
    s[..j] + s[j + 1..]
  }

  ghost function Remove(s: seq<nat>, x: nat): (r: seq<nat>)
    ensures Distinct(s) ==> Distinct(r) && forall y :: y in r <==> y in s && y != x
  {
    var j := Pos(s, x);
    if j < |s| then
      assert s == s[..j] + [x] + s[j + 1..];
      RemoveAt(s, j)
    else s
  }

  /** What one pass that drops `x` and `y` leaves. */
  ghost function Without(s: seq<nat>, x: nat, y: nat): (r: seq<nat>)
    ensures forall z :: z in r <==> z in s && z != x && z != y
    ensures Distinct(s) ==> Distinct(r)
  {
    if s == [] then []
    else
      var r := Without(s[1..], x, y);
      assert s == [s[0]] + s[1..];
      assert Distinct(s) ==> Distinct(s[1..]) && s[0] !in s[1..];
      if s[0] == x || s[0] == y then r else [s[0]] + r
  }

  ghost function Replace(s: seq<nat>, x: nat, y: nat): (r: seq<nat>)
    ensures Distinct(s) && x in s && y !in s ==> Distinct(r) && forall z :: z in r <==> z == y || (z in s && z != x)
  {
    var j := Pos(s, x);
    if j < |s| then
      assert s == s[..j] + [x] + s[j + 1..];
      assert s[j := y] == s[..j] + [y] + s[j + 1..];
      s[j := y]
    else s
  }

  // ----- Splitting and fusing blocks

  ghost function WithPrev(B: Blocks, c: nat, v: nat): (R: Blocks)
    ensures R.start == B.start && R.end == B.end
  {
    if c in B.tags then B.(tags := B.tags[c := B.tags[c].(prev := v)]) else B
  }

  /** Block `a` swallows its successor, whose own successor learns the new size. */
  ghost function Fuse(B: Blocks, a: nat): (R: Blocks)
    requires a in B.tags
    ensures R.start == B.start && R.end == B.end
  {
    var b := Next(B, a);
    if b in B.tags then
      var s := B.tags[a].size + HDR + B.tags[b].size;
      WithPrev(B.(tags := (B.tags - {b})[a := B.tags[a].(size := s)]), a + HDR + s, s)
    else B
  }

  /** Block `a` keeps `s` bytes and a new header takes over the rest. */
  ghost function Split(B: Blocks, a: nat, s: nat, low: bool, high: bool): (R: Blocks)
    requires a in B.tags && s + HDR <= B.tags[a].size
    ensures R.start == B.start && R.end == B.end
  {
    var b := a + HDR + s;
    var r := B.tags[a].size - s - HDR;
    WithPrev(B.(tags := B.tags[a := B.tags[a].(size := s, free := low)][b := Tag(s, r, high)]), b + HDR + r, r)
  }

  ghost function Mark(B: Blocks, a: nat, free: bool): (R: Blocks)
    requires a in B.tags
    ensures R.start == B.start && R.end == B.end
  {
    B.(tags := B.tags[a := B.tags[a].(free := free)])
  }

  // ----- The allocator's operations

  ghost predicate Fits(B: Blocks, a: nat, n: nat) {
    IsFree(B, a) && n <= B.tags[a].size
  }

  /** The search loop after `k` freelist entries: the position of the best fit so far, or -1. */
  ghost function BestFit(L: Layout, n: nat, k: nat): (r: int)
    requires k <= |L.fl|
    ensures -1 <= r < k
    ensures r >= 0 ==> Fits(L.blocks, L.fl[r], n)
  {
    if k == 0 then -1
    else
      var r, a := BestFit(L, n, k - 1), L.fl[k - 1];
      if Fits(L.blocks, a, n) && (r < 0 || L.blocks.tags[a].size < L.blocks.tags[L.fl[r]].size) then k - 1 else r
  }

  /** `wdmalloc`: the new layout and the pointer returned, 0 standing for NULL. */
  ghost function Malloc(L: Layout, n: nat): (Layout, nat) {
    var k := BestFit(L, n, |L.fl|);
    if k < 0 then (L, 0)
    else
      var a := L.fl[k];
      var t := L.blocks.tags[a].size;
      if t >= n + HDR then (Layout(Split(L.blocks, a, t - n - HDR, true, false), L.fl), a + t - n + HDR)
      else (Layout(Mark(L.blocks, a, false), RemoveAt(L.fl, k)), a + HDR)
  }

  /** `coalesce`: `a` is tagged free and not yet on the freelist. */
  ghost function Coalesce(L: Layout, a: nat): Layout
    requires a in L.blocks.tags
  {
    var B := L.blocks;
    if PrevFree(B, a) then
      var p := Prev(B, a);
      var F := Fuse(B, p);
      if NextFree(B, a) then Layout(Fuse(F, p), Remove(L.fl, Next(B, a))) else Layout(F, L.fl)
    else if NextFree(B, a) then Layout(Fuse(B, a), Replace(L.fl, Next(B, a), a))
    else Layout(B, [a] + L.fl)
  }

  /** `wdfree`: no effect with an empty freelist or a pointer outside the heap. */
  ghost function Free(L: Layout, p: nat): Layout {
    if L.fl == [] || !(L.blocks.start + HDR <= p < L.blocks.end) || p - HDR !in L.blocks.tags then L
    else Coalesce(Layout(Mark(L.blocks, p - HDR, true), L.fl), p - HDR)
  }

  /** Hand out `n` bytes of block `a`, returning a surplus of at least 16 to the freelist. */
  ghost function Settle(L: Layout, a: nat, n: nat): Layout
    requires a in L.blocks.tags
  {
    if L.blocks.tags[a].size >= n + SLACK then Layout(Split(L.blocks, a, n, false, true), [a + HDR + n] + L.fl)
    else Layout(Mark(L.blocks, a, false), L.fl)
  }

  /**
    How a growing `wdrealloc` finds room next to the block: where it will start, its bytes, what leaves the freelist.
   */
  datatype Choice = Elsewhere | Here(start: nat, avail: nat, rem0: nat, rem1: nat)

  ghost function Choose(B: Blocks, a: nat, n: nat): (c: Choice)
    requires a in B.tags
    ensures c.Here? ==> c.start in B.tags && n <= c.avail
  {
    var s, b, p := B.tags[a].size, Next(B, a), Prev(B, a);
    if NextFree(B, a) && B.tags[b].size + HDR + s >= n then Here(a, B.tags[b].size + HDR + s, b, 0)
    else if PrevFree(B, a) && B.tags[p].size + HDR + s >= n then Here(p, B.tags[p].size + HDR + s, p, 0)
    else if NextFree(B, a) && PrevFree(B, a) && B.tags[p].size + HDR + s + HDR + B.tags[b].size >= n then
      Here(p, B.tags[p].size + HDR + s + HDR + B.tags[b].size, p, b)
    else Elsewhere
  }

  /** The chosen neighbours become one block. */
  ghost function Gather(L: Layout, c: Choice): (G: Layout)
    requires c.Here? && c.start in L.blocks.tags
    ensures c.start in G.blocks.tags
  {
    var F := Fuse(L.blocks, c.start);
    Layout(if c.rem1 == 0 then F else Fuse(F, c.start), Without(L.fl, c.rem0, c.rem1))
  }

  /** A growing `wdrealloc` of block `a`. */
  ghost function Grow(L: Layout, a: nat, n: nat): (Layout, nat)
    requires a in L.blocks.tags
  {
    var c := Choose(L.blocks, a, n);
    if c.Here? then (Settle(Gather(L, c), c.start, n), c.start + HDR)
    else
      var (M, r) := Malloc(L, n);
      if r == 0 then (L, 0) else (Free(M, a + HDR), r)
  }

  /** A shrinking `wdrealloc` of block `a` to `n > 0` bytes. */
  ghost function Shrink(L: Layout, a: nat, n: nat): Layout
    requires a in L.blocks.tags
  {
    if L.blocks.tags[a].size >= n + SLACK then
      Coalesce(Layout(Split(L.blocks, a, n, false, true), L.fl), a + HDR + n)
    else L
  }

  /** `wdrealloc`. */
  ghost function Realloc(L: Layout, p: nat, n: nat): (Layout, nat) {
    if L.fl == [] then (L, 0)
    else if p == 0 then Malloc(L, n)
    else if !Live(L, p) then (L, 0)
    else
      var a := p - HDR;
      var s := L.blocks.tags[a].size;
      if n == s then (L, p)
      else if n > s then Grow(L, a, n)
      else if n == 0 then (Free(L, p), 0)
      else (Shrink(L, a, n), p)
  }

  /** The layout `wdmalloc_init` sets up. */
  ghost function Initial(start: nat, size: nat): Layout
    requires HDR < size
  {
    Layout(Blocks(start, start + size, map[start := Tag(0, size - HDR, true)]), [start])
  }
}
