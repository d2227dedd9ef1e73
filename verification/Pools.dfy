/**
  The page pools.  Physical memory is seen as pages of 512 entries, `ram`, and, where bitmaps lie, as bits: bit `j` of
  the byte at physical address `p` is bit `8 * p + j` of `mem`, so physical page `q` is the 32768 bits from `32768 * q`
  on.
 */
module Pools {
  import opened Bitmaps
  import opened PagePool
  import opened Addresses
  import opened PageTree

  // ----- Bits on pages

  /** Some of the `n` bits of memory from `lo` on lie on the `k` pages from `page` on. */
  ghost predicate Touches(page: int, k: nat, lo: nat, n: nat) {
    0 < k && 0 < n && lo < 32768 * (page + k) && 32768 * page < lo + n
  }

  /** None of them lies on a free page of the pool with bits `b` and first page `first`. */
  ghost predicate Sheltered(b: seq<bool>, first: int, lo: nat, n: nat) {
    forall i {:trigger b[i]} :: 0 <= i < |b| && !b[i] ==> !Touches(first + i, 1, lo, n)
  }

  lemma RunSheltered(b: seq<bool>, first: int, lo: nat, n: nat, r: nat, k: nat)
    requires Sheltered(b, first, lo, n) && IsRun(b, r, k, false)
    ensures !Touches(first + r, k, lo, n)
  {
    if Touches(first + r, k, lo, n) {
      var i := TouchedPage(first, r, k, lo, n);
      FreePage(b, first, lo, n, i);
      assert false;
    }
  }

  lemma TouchedPage(first: int, r: nat, k: nat, lo: nat, n: nat) returns (i: nat)
    requires Touches(first + r, k, lo, n)
    ensures r <= i < r + k && Touches(first + i, 1, lo, n)
  {
    var p := lo / 32768;
    i := if p < first + r then r else p - first;
  }

  lemma FreePage(b: seq<bool>, first: int, lo: nat, n: nat, i: nat)
    requires Sheltered(b, first, lo, n) && i < |b|
    ensures b[i] || !Touches(first + i, 1, lo, n)
  {
  }

  /** Taking pages leaves fewer free ones. */
  lemma TookSheltered(b: seq<bool>, k: nat, r: int, b': seq<bool>, first: int, lo: nat, n: nat)
    requires Took(b, k, r, b') && Sheltered(b, first, lo, n)
    ensures Sheltered(b', first, lo, n)
  {
    forall i | 0 <= i < |b'| && !b'[i] ensures !Touches(first + i, 1, lo, n) { assert !b[i]; }
  }

  /** Bits `b`, which start at bit `lo` of memory, after the `k` pages from `page` on have been zeroed. */
  ghost function Wiped(b: seq<bool>, lo: nat, page: int, k: nat): (w: seq<bool>)
    ensures |w| == |b|
  {
    seq(|b|, x requires 0 <= x < |b| => b[x] && !(32768 * page <= lo + x < 32768 * (page + k)))
  }

  /** Zeroing pages spares bits, whatever they are, exactly when none of them lies there. */
  lemma WipedKeeps(lo: nat, n: nat, page: int, k: nat)
    ensures (forall b: seq<bool> {:trigger Wiped(b, lo, page, k)} :: |b| == n ==> Wiped(b, lo, page, k) == b)
      <==> !Touches(page, k, lo, n)
  {
    if Touches(page, k, lo, n) {
      var b := seq(n, i => true);
      var x := if 32768 * page <= lo then 0 else 32768 * page - lo;
      assert !Wiped(b, lo, page, k)[x] && b[x];
    } else {
      forall b: seq<bool> | |b| == n ensures Wiped(b, lo, page, k) == b { SparedBits(b, lo, page, k); }
    }
  }

  lemma SparedBits(b: seq<bool>, lo: nat, page: int, k: nat)
    requires !Touches(page, k, lo, |b|)
    ensures Wiped(b, lo, page, k) == b
  {
  }

  // ----- One pool

  /** Where the page at index `i` of a pool is mapped; NULL for index -1. */
  ghost function PageAddress(first: int, i: int): int {
    if i == -1 then 0 else PHYS_BASE + 4096 * (first + i)
  }

  /** The ranges of addresses that a run of requests stands for. */
  lemma RunRanges(bs: seq<seq<bool>>, ns: seq<nat>, rs: seq<int>, first: nat, ptrs: seq<nat>)
    requires PoolRun(bs, ns, rs) && |ptrs| == |ns| == |rs| && |bs| == |ns| + 1
    requires forall x {:trigger ptrs[x]} :: 0 <= x < |ptrs| ==> ptrs[x] == PageAddress(first, rs[x])
    ensures forall j {:trigger ptrs[j]} :: 0 <= j < |ptrs| ==>
      (ptrs[j] == 0 <==> rs[j] == -1) && (ptrs[j] != 0 ==>
        && PHYS_BASE + 4096 * first <= ptrs[j]
        && ptrs[j] + 4096 * ns[j] <= PHYS_BASE + 4096 * (first + |bs[0]|))
    ensures forall j, k {:trigger ptrs[j], ptrs[k]} :: 0 <= j < k < |ptrs| && ptrs[j] != 0 && ptrs[k] != 0 ==>
      ptrs[j] + 4096 * ns[j] <= ptrs[k] || ptrs[k] + 4096 * ns[k] <= ptrs[j]
  {
    hide PoolRun;
    forall j | 0 <= j < |ptrs| ensures rs[j] != -1 ==> 0 <= rs[j] && rs[j] + ns[j] <= |bs[0]| {
      RunInPool(bs, ns, rs, j);
    }
    forall j, k | 0 <= j < k < |ptrs| && ptrs[j] != 0 && ptrs[k] != 0
      ensures ptrs[j] + 4096 * ns[j] <= ptrs[k] || ptrs[k] + 4096 * ns[k] <= ptrs[j]
    {
      RunDisjoint(bs, ns, rs, j, k);
    }
  }

  /** A pool of pages: `ram` is physical memory, of which the pool is the part from virtual address `pageBase` on. */
  class Pool {
    const ram: array<seq<nat>>
    const bmp: Bitmap
    const pageBase: nat

    constructor (memory: array<seq<nat>>, bitmap: Bitmap, base: nat)
      ensures ram == memory && bmp == bitmap && pageBase == base
    {
      ram, bmp, pageBase := memory, bitmap, base;
    }

    /** An initialised pool: its pages lie in memory and in the top 2 GiB, and none that is free holds its bitmap. */
    ghost predicate Valid()
      reads this, bmp, bmp.mem, ram
    {
      && bmp.Valid() && Paged(ram[..])
      && pageBase % 4096 == 0 && PHYS_BASE <= pageBase && pageBase + 4096 * bmp.size <= SPACE
      && First() + bmp.size <= ram.Length
      && Sheltered(bmp.Bits(), First(), 8 * bmp.buf, bmp.size)
    }

    /** The physical page number of the pool's first page. */
    ghost function First(): int { (pageBase - PHYS_BASE) / 4096 }

    /** Outside the bitmap, `m'` is `m` with the `k` pages from `page` on zeroed. */
    ghost predicate Zeroed(m: seq<bool>, m': seq<bool>, page: int, k: nat)
      reads this, bmp
    {
      && |m'| == |m|
      && forall x {:trigger m'[x]} :: 0 <= x < |m| && !(8 * bmp.buf <= x < 8 * bmp.buf + bmp.size) ==>
          m'[x] == (m[x] && !(32768 * page <= x < 32768 * (page + k)))
    }

    /** The bitmap part of `paging_get_pages`. */
    method TakePages(n: nat) returns (k: int)
      requires bmp.Valid() && 1 <= n <= bmp.size
      modifies bmp.mem
      ensures Took(old(bmp.Bits()), n, k, bmp.Bits()) && -1 <= k
      ensures bmp.OnlyOwnBits(old(bmp.mem[..]), bmp.mem[..])
    {
      ghost var m := bmp.mem[..];
      k := bmp.TestAndFlip(false, 0, bmp.size - 1, n);
      if k != -1 {
        FlippedInside(m, 8 * bmp.buf, bmp.size, k, k + n);
      }
    }

    /** `memset(pg_ptr, 0, n * PAGE_SIZE)` for the pages from physical page `first` on, entries and bits alike. */
    method ZeroPages(first: nat, n: nat)
      requires first + n <= ram.Length
      modifies ram, bmp.mem
      ensures forall p :: 0 <= p < ram.Length ==> ram[p] == if first <= p < first + n then Zeros() else old(ram[p])
      ensures bmp.mem[..] == Cleared(old(bmp.mem[..]), 32768 * first, 32768 * n)
    {
      for j := 0 to n
        invariant forall p :: 0 <= p < ram.Length ==> ram[p] == if first <= p < first + j then Zeros() else old(ram[p])
        invariant bmp.mem[..] == old(bmp.mem[..])
      {
        ram[first + j] := Zeros();
      }
      ZeroBits(32768 * first, 32768 * n);
    }

    method ZeroBits(lo: nat, n: nat)
      modifies bmp.mem
      ensures bmp.mem[..] == Cleared(old(bmp.mem[..]), lo, n)
    {
      for x := 0 to n
        invariant bmp.mem[..] == Cleared(old(bmp.mem[..]), lo, x)
      {
        if lo + x < bmp.mem.Length {
          bmp.mem[lo + x] := false;
        }
      }
    }

    /**
      `paging_get_pages` on this pool; `i` is the page index found.  If asked it zeroes all `n` pages and the bits on
      them; otherwise, or when it returns NULL, it writes nothing outside the bitmap.
     */
    method GetPages(n: nat, zero: bool) returns (r: nat, ghost i: int)
      requires Valid() && 1 <= n <= bmp.size
      modifies bmp.mem, ram
      ensures Valid() && Took(old(bmp.Bits()), n, i, bmp.Bits())
      ensures -1 <= i && r == if i == -1 then 0 else pageBase + 4096 * i
      ensures zero && i != -1 ==>
        forall p :: 0 <= p < ram.Length && First() + i <= p < First() + i + n ==> ram[p] == Zeros()
      ensures forall p :: 0 <= p < ram.Length && !(First() + i <= p < First() + i + n) ==> ram[p] == old(ram[p])
      ensures !zero || i == -1 ==> ram[..] == old(ram[..]) && bmp.OnlyOwnBits(old(bmp.mem[..]), bmp.mem[..])
      ensures zero && i != -1 ==>
        forall x :: 32768 * (First() + i) <= x < 32768 * (First() + i + n) && bmp.Foreign(x) ==> !bmp.mem[x]
      ensures zero && i != -1 ==>
        forall x :: !(32768 * (First() + i) <= x < 32768 * (First() + i + n)) && bmp.Foreign(x) ==>
          bmp.mem[x] == old(bmp.mem[x])
      ensures r == PageAddress(First(), i)
      ensures Zeroed(old(bmp.mem[..]), bmp.mem[..], First() + i, if zero && i != -1 then n else 0)
    {
      hide Took, Sheltered, PageAddress, Paged;
      r, i := Grab(n, zero);
      PageAddressIs(First(), i);
    }

    lemma PageAddressIs(first: int, i: int)
      requires pageBase % 4096 == 0 && PHYS_BASE <= pageBase && first == First()
      ensures PageAddress(first, i) == if i == -1 then 0 else pageBase + 4096 * i
    {
    }

    method Grab(n: nat, zero: bool) returns (r: nat, ghost i: int)
      requires Valid() && 1 <= n <= bmp.size
      modifies bmp.mem, ram
      ensures Valid() && Took(old(bmp.Bits()), n, i, bmp.Bits())
      ensures -1 <= i && r == PageAddress(First(), i)
      ensures Zeroed(old(bmp.mem[..]), bmp.mem[..], First() + i, (if zero && i != -1 then n else 0))
      ensures forall p :: 0 <= p < ram.Length ==>
        ram[p] == if First() + i <= p < First() + i + (if zero && i != -1 then n else 0) then Zeros() else old(ram[p])
    {
      hide Took, Vtop, Sheltered, Touches, Zeroed, Cleared, Bitmap.OnlyOwnBits;
      ghost var m, b := bmp.mem[..], bmp.Bits();
      var k := TakePages(n);
      i := k;
      ghost var m1, b1 := bmp.mem[..], bmp.Bits();
      NothingZeroed(m, m1, First() + k);
      TookSheltered(b, n, k, b1, First(), 8 * bmp.buf, bmp.size);
      if k == -1 {
        return 0, -1;
      }
      TookBounds(b, n, k, b1);
      r := pageBase + 4096 * k;
      if zero {
        PtovVtop(First() + k);
        ZeroPages(Vtop(r) / 4096, n);
        BytesHold(bmp.size);
        OwnBitsSpared(b, n, k, b1, m1, bmp.mem[..]);
        PagesZeroed(m, m1, bmp.mem[..], First() + k, n);
      }
    }

    lemma NothingZeroed(m: seq<bool>, m1: seq<bool>, page: int)
      requires bmp.OnlyOwnBits(m, m1)
      ensures Zeroed(m, m1, page, 0)
    {
    }

    lemma PagesZeroed(m: seq<bool>, m1: seq<bool>, m2: seq<bool>, page: nat, k: nat)
      requires bmp.OnlyOwnBits(m, m1) && m2 == Cleared(m1, 32768 * page, 32768 * k)
      ensures Zeroed(m, m2, page, k)
    {
    }

    /** Zeroing pages that were free spares the bitmap. */
    lemma OwnBitsSpared(b: seq<bool>, n: nat, k: nat, b1: seq<bool>, m: seq<bool>, m': seq<bool>)
      requires Took(b, n, k, b1) && |b| == bmp.size && Sheltered(b, First(), 8 * bmp.buf, bmp.size)
      requires 0 <= First() && 8 * bmp.buf + bmp.size <= |m|
      requires m' == Cleared(m, 32768 * (First() + k), 32768 * n)
      ensures m'[8 * bmp.buf..8 * bmp.buf + bmp.size] == m[8 * bmp.buf..8 * bmp.buf + bmp.size]
    {
      RunSheltered(b, First(), 8 * bmp.buf, bmp.size, k, n);
    }

    /**
      Any run of requests: the page ranges handed out lie in the pool, do not overlap, and account for the pages
      taken.
     */
    method Serve(ns: seq<nat>, zero: bool) returns (ptrs: seq<nat>, ghost rs: seq<int>)
      requires Valid() && forall j :: 0 <= j < |ns| ==> 1 <= ns[j] <= bmp.size
      modifies bmp.mem, ram
      ensures Valid() && |ptrs| == |ns| == |rs|
      ensures forall j :: 0 <= j < |ns| && ptrs[j] != 0 ==>
        pageBase <= ptrs[j] && ptrs[j] + 4096 * ns[j] <= pageBase + 4096 * bmp.size
      ensures forall j, k :: 0 <= j < k < |ns| && ptrs[j] != 0 && ptrs[k] != 0 ==>
        ptrs[j] + 4096 * ns[j] <= ptrs[k] || ptrs[k] + 4096 * ns[k] <= ptrs[j]
      ensures Count(bmp.Bits()) == old(Count(bmp.Bits())) + Granted(ns, rs)
      ensures forall j :: 0 <= j < |ns| ==> (ptrs[j] == 0 <==> rs[j] == -1)
    {
      hide Took, Count, Granted, PoolRun;
      ghost var bs := [bmp.Bits()];
      ptrs, rs := [], [];
      EmptyRun(bs);
      for j := 0 to |ns|
        invariant Valid() && |ptrs| == |rs| == j && |bs| == j + 1
        invariant PoolRun(bs, ns[..j], rs) && bs[0] == old(bmp.Bits()) && bs[j] == bmp.Bits()
        invariant forall x {:trigger ptrs[x]} :: 0 <= x < j ==> ptrs[x] == PageAddress(First(), rs[x])
        invariant forall x {:trigger rs[x]} :: 0 <= x < j ==> -1 <= rs[x]
      {
        var r;
        ghost var i;
        r, i := GetPages(ns[j], zero);
        PoolRunSnoc(bs, ns[..j], rs, ns[j], i, bmp.Bits());
        assert ns[..j] + [ns[j]] == ns[..j + 1];
        ptrs, rs, bs := ptrs + [r], rs + [i], bs + [bmp.Bits()];
      }
      assert ns[..|ns|] == ns;
      RunCount(bs, ns, rs);
      RunRanges(bs, ns, rs, First(), ptrs);
    }
  }

  // ----- Two pools

  /** Two pools of one memory that share no page and no bit of their bitmaps; the last words of these may overlap. */
  ghost predicate Apart(one: Pool, other: Pool)
    reads one, one.bmp, other, other.bmp
  {
    && one.bmp.mem == other.bmp.mem && one.ram == other.ram
    && (8 * one.bmp.buf + one.bmp.size <= 8 * other.bmp.buf || 8 * other.bmp.buf + other.bmp.size <= 8 * one.bmp.buf)
    && (one.First() + one.bmp.size <= other.First() || other.First() + other.bmp.size <= one.First())
  }

  /** No free page of the pool holds a bit of the bitmap. */
  ghost predicate Shelters(pool: Pool, bmp: Bitmap)
    requires pool.bmp.Valid()
    reads pool, pool.bmp, pool.bmp.mem, bmp
  {
    Sheltered(pool.bmp.Bits(), pool.First(), 8 * bmp.buf, bmp.size)
  }

  /** No free page of either pool holds a bit of the other's bitmap. */
  ghost predicate Guarded(kernel: Pool, user: Pool)
    requires kernel.bmp.Valid() && user.bmp.Valid()
    reads kernel, kernel.bmp, kernel.bmp.mem, user, user.bmp, user.bmp.mem
  {
    Shelters(kernel, user.bmp) && Shelters(user, kernel.bmp)
  }

  /** What zeroing pages makes of the bits of another bitmap. */
  lemma OtherBits(pool: Pool, other: Bitmap, m: seq<bool>, m': seq<bool>, page: int, k: nat)
    requires pool.Zeroed(m, m', page, k) && 8 * other.buf + other.size <= |m|
    requires 8 * pool.bmp.buf + pool.bmp.size <= 8 * other.buf || 8 * other.buf + other.size <= 8 * pool.bmp.buf
    ensures m'[8 * other.buf..8 * other.buf + other.size] ==
      Wiped(m[8 * other.buf..8 * other.buf + other.size], 8 * other.buf, page, k)
  {
  }

  /** Only the `k` pages from `page` on differ, and are zeroed. */
  ghost predicate ZeroedPages(m: Memory, m': Memory, page: int, k: nat) {
    |m'| == |m| && forall p {:trigger m'[p]} :: 0 <= p < |m| ==> m'[p] == if page <= p < page + k then Zeros() else m[p]
  }

  /**
    A pool with first page `first` and bits `b` has served a request for `n` pages with those from index `i` on.  If
    they are zeroed, so are the bits of another bitmap, `c` at bit `lo` of memory, that lie on them.
   */
  ghost predicate Served(first: int, b: seq<bool>, b': seq<bool>, lo: nat, c: seq<bool>, c': seq<bool>, m: Memory,
                         m': Memory, n: nat, zero: bool, i: int)
  {
    && -1 <= i && Took(b, n, i, b')
    && c' == Wiped(c, lo, first + i, (if zero && i != -1 then n else 0))
    && ZeroedPages(m, m', first + i, (if zero && i != -1 then n else 0))
  }

  /** All `n` pages are zeroed with the bits on them if asked and found, and nothing else is; otherwise nothing is. */
  lemma ServedMeans(first: int, b: seq<bool>, b': seq<bool>, lo: nat, c: seq<bool>, c': seq<bool>, m: Memory,
                    m': Memory, n: nat, zero: bool, i: int)
    requires Served(first, b, b', lo, c, c', m, m', n, zero, i)
    ensures |m'| == |m| && |c'| == |c| && (!zero || i == -1 ==> m' == m && c' == c)
    ensures forall p :: 0 <= p < |m| && zero && i != -1 && first + i <= p < first + i + n ==> m'[p] == Zeros()
    ensures forall p :: 0 <= p < |m| && !(first + i <= p < first + i + n) ==> m'[p] == m[p]
    ensures zero && i != -1 ==>
      forall x :: 0 <= x < |c| && 32768 * (first + i) <= lo + x < 32768 * (first + i + n) ==> !c'[x]
    ensures forall x :: 0 <= x < |c| && !(32768 * (first + i) <= lo + x < 32768 * (first + i + n)) ==> c'[x] == c[x]
  {
    hide Took;
    assert !zero || i == -1 ==> m' == m;
  }

  /** If no free page held bits of the other bitmap, that keeps its bits, and still no free page does. */
  lemma ServedSpares(first: int, b: seq<bool>, b': seq<bool>, lo: nat, c: seq<bool>, c': seq<bool>, m: Memory,
                     m': Memory, n: nat, zero: bool, i: int)
    requires Served(first, b, b', lo, c, c', m, m', n, zero, i) && Sheltered(b, first, lo, |c|)
    ensures c' == c && Sheltered(b', first, lo, |c|)
  {
    hide Took, Sheltered, Wiped, ZeroedPages;
    TookSheltered(b, n, i, b', first, lo, |c|);
    TookSpares(b, n, i, b', first, lo, c, (if zero && i != -1 then n else 0));
  }

  /** The pages of another pool stay as they are. */
  lemma ServedElsewhere(first: int, b: seq<bool>, b': seq<bool>, lo: nat, c: seq<bool>, c': seq<bool>, m: Memory,
                        m': Memory, n: nat, zero: bool, i: int, p: nat)
    requires Served(first, b, b', lo, c, c', m, m', n, zero, i) && p < |m| && !(first <= p < first + |b|)
    ensures |m'| == |m| && m'[p] == m[p]
  {
    if i != -1 { TookBounds(b, n, i, b'); }
  }

  /** `paging_get_pages` on one of two pools. */
  method TakeFrom(pool: Pool, other: Pool, n: nat, zero: bool) returns (r: nat, ghost i: int)
    requires pool.Valid() && other.Valid() && Apart(pool, other) && 1 <= n <= pool.bmp.size
    modifies pool.bmp.mem, pool.ram
    ensures pool.Valid() && other.bmp.Valid() && r == PageAddress(pool.First(), i)
    ensures Served(pool.First(), old(pool.bmp.Bits()), pool.bmp.Bits(), 8 * other.bmp.buf, old(other.bmp.Bits()),
                   other.bmp.Bits(), old(pool.ram[..]), pool.ram[..], n, zero, i)
    ensures old(Shelters(pool, other.bmp)) ==>
      other.Valid() && other.bmp.Bits() == old(other.bmp.Bits()) && Shelters(pool, other.bmp)
  {
    hide Took, PageAddress, Sheltered, Wiped, Pool.Zeroed, Paged;
    ghost var m, b, c, v := pool.bmp.mem[..], pool.bmp.Bits(), other.bmp.Bits(), pool.ram[..];
    ghost var first, lo := pool.First(), 8 * other.bmp.buf;
    r, i := pool.Grab(n, zero);
    BytesHold(other.bmp.size);
    OtherBits(pool, other.bmp, m, pool.bmp.mem[..], pool.First() + i, (if zero && i != -1 then n else 0));
    assert Served(first, b, pool.bmp.Bits(), lo, c, other.bmp.Bits(), v, pool.ram[..], n, zero, i);
    if Sheltered(b, first, lo, other.bmp.size) {
      ServedSpares(first, b, pool.bmp.Bits(), lo, c, other.bmp.Bits(), v, pool.ram[..], n, zero, i);
    }
  }

  lemma TookSpares(b: seq<bool>, n: nat, i: int, b': seq<bool>, first: int, lo: nat, c: seq<bool>, k: nat)
    requires Took(b, n, i, b') && Sheltered(b, first, lo, |c|) && (k == 0 || (i != -1 && k == n))
    ensures Wiped(c, lo, first + i, k) == c
  {
    if k != 0 { RunSheltered(b, first, lo, |c|, i, n); }
    SparedBits(c, lo, first + i, k);
  }

  /** `paging_get_pages`: the flag picks the pool. */
  method GetPages(kernel: Pool, user: Pool, n: nat, forUser: bool, zero: bool) returns (r: nat, ghost i: int)
    requires kernel.Valid() && user.Valid() && Apart(kernel, user)
    requires 1 <= n <= (if forUser then user else kernel).bmp.size
    modifies kernel.bmp.mem, kernel.ram
    ensures kernel.bmp.Valid() && user.bmp.Valid() && Apart(kernel, user)
    ensures forUser ==> user.Valid() && r == PageAddress(user.First(), i)
    ensures forUser ==>
      Served(user.First(), old(user.bmp.Bits()), user.bmp.Bits(), 8 * kernel.bmp.buf, old(kernel.bmp.Bits()),
             kernel.bmp.Bits(), old(user.ram[..]), user.ram[..], n, zero, i)
    ensures !forUser ==> kernel.Valid() && r == PageAddress(kernel.First(), i)
    ensures !forUser ==>
      Served(kernel.First(), old(kernel.bmp.Bits()), kernel.bmp.Bits(), 8 * user.bmp.buf, old(user.bmp.Bits()),
             user.bmp.Bits(), old(kernel.ram[..]), kernel.ram[..], n, zero, i)
    ensures old(Guarded(kernel, user)) ==> kernel.Valid() && user.Valid() && Guarded(kernel, user)
    ensures old(Guarded(kernel, user)) ==>
      if forUser then kernel.bmp.Bits() == old(kernel.bmp.Bits()) else user.bmp.Bits() == old(user.bmp.Bits())
  {
    hide PageAddress, Served, Sheltered, Paged;
    if forUser {
      r, i := TakeFrom(user, kernel, n, zero);
    } else {
      r, i := TakeFrom(kernel, user, n, zero);
    }
  }

  /** One request of a run. */
  method ServeOne(kernel: Pool, user: Pool, q: Request, ghost k0: nat, ghost u0: nat, ghost reqs: seq<Request>,
                  ghost rs: seq<int>)
    returns (r: nat, ghost i: int)
    requires kernel.Valid() && user.Valid() && Apart(kernel, user) && Guarded(kernel, user)
    requires 1 <= q.n <= (if q.user then user else kernel).bmp.size
    requires Ledger(k0, u0, kernel.bmp.Bits(), user.bmp.Bits(), reqs, rs)
    modifies kernel.bmp.mem, kernel.ram
    ensures kernel.Valid() && user.Valid() && Apart(kernel, user) && Guarded(kernel, user)
    ensures Ledger(k0, u0, kernel.bmp.Bits(), user.bmp.Bits(), reqs + [q], rs + [i])
    ensures r == PageAddress(if q.user then user.First() else kernel.First(), i)
  {
    hide Took, Wiped, Ledger, PageAddress, Sheltered, Paged;
    ghost var kb, ub := kernel.bmp.Bits(), user.bmp.Bits();
    r, i := GetPages(kernel, user, q.n, q.user, q.zero);
    LedgerStep(k0, u0, kb, ub, reqs, rs, q, i, kernel.bmp.Bits(), user.bmp.Bits());
  }

  /**
    Any run of requests to both pools: the page ranges handed out lie in the pool asked for and do not overlap, within a
    pool or across the two, and account for the pages taken from each.
   */
  method Serve(kernel: Pool, user: Pool, reqs: seq<Request>) returns (ptrs: seq<nat>, ghost rs: seq<int>)
    requires kernel.Valid() && user.Valid() && Apart(kernel, user) && Guarded(kernel, user)
    requires forall j :: 0 <= j < |reqs| ==> 1 <= reqs[j].n <= (if reqs[j].user then user else kernel).bmp.size
    modifies kernel.bmp.mem, kernel.ram
    ensures kernel.Valid() && user.Valid() && Guarded(kernel, user) && |ptrs| == |rs| == |reqs|
    ensures forall j :: 0 <= j < |reqs| && ptrs[j] != 0 ==>
      var pool := if reqs[j].user then user else kernel;
      pool.pageBase <= ptrs[j] && ptrs[j] + 4096 * reqs[j].n <= pool.pageBase + 4096 * pool.bmp.size
    ensures forall j, k :: 0 <= j < k < |reqs| && ptrs[j] != 0 && ptrs[k] != 0 ==>
      ptrs[j] + 4096 * reqs[j].n <= ptrs[k] || ptrs[k] + 4096 * reqs[k].n <= ptrs[j]
    ensures Count(kernel.bmp.Bits()) == old(Count(kernel.bmp.Bits())) + GrantedTo(reqs, rs, false)
    ensures Count(user.bmp.Bits()) == old(Count(user.bmp.Bits())) + GrantedTo(reqs, rs, true)
    ensures forall j :: 0 <= j < |reqs| ==> (ptrs[j] == 0 <==> rs[j] == -1)
  {
    hide Took, Sheltered, Paged, Ledger, Count, GrantedTo;
    ghost var kb, ub := kernel.bmp.Bits(), user.bmp.Bits();
    ptrs, rs := ServeEach(kernel, user, reqs);
    ghost var kb', ub' := kernel.bmp.Bits(), user.bmp.Bits();
    LedgerCounts(Count(kb), Count(ub), kb', ub', reqs, rs);
    ServedRanges(Count(kb), Count(ub), kb', ub', reqs, rs, kernel.First(), user.First(), ptrs);
  }

  method ServeEach(kernel: Pool, user: Pool, reqs: seq<Request>) returns (ptrs: seq<nat>, ghost rs: seq<int>)
    requires kernel.Valid() && user.Valid() && Apart(kernel, user) && Guarded(kernel, user)
    requires forall j :: 0 <= j < |reqs| ==> 1 <= reqs[j].n <= (if reqs[j].user then user else kernel).bmp.size
    modifies kernel.bmp.mem, kernel.ram
    ensures kernel.Valid() && user.Valid() && Guarded(kernel, user) && |ptrs| == |rs| == |reqs|
    ensures Ledger(old(Count(kernel.bmp.Bits())), old(Count(user.bmp.Bits())),
                   kernel.bmp.Bits(), user.bmp.Bits(), reqs, rs)
    ensures forall x {:trigger ptrs[x]} :: 0 <= x < |ptrs| ==>
      ptrs[x] == PageAddress(if reqs[x].user then user.First() else kernel.First(), rs[x])
  {
    hide Ledger, Count, PageAddress, Sheltered, Paged;
    ghost var k0, u0 := Count(kernel.bmp.Bits()), Count(user.bmp.Bits());
    ptrs, rs := [], [];
    LedgerStart(kernel.bmp.Bits(), user.bmp.Bits());
    for j := 0 to |reqs|
      invariant |ptrs| == |rs| == j
      invariant kernel.Valid() && user.Valid() && Apart(kernel, user) && Guarded(kernel, user)
      invariant Ledger(k0, u0, kernel.bmp.Bits(), user.bmp.Bits(), reqs[..j], rs)
      invariant forall x {:trigger ptrs[x]} :: 0 <= x < j ==>
        ptrs[x] == PageAddress(if reqs[x].user then user.First() else kernel.First(), rs[x])
    {
      var r;
      ghost var i;
      r, i := ServeOne(kernel, user, reqs[j], k0, u0, reqs[..j], rs);
      assert reqs[..j] + [reqs[j]] == reqs[..j + 1];
      ptrs, rs := ptrs + [r], rs + [i];
    }
    assert reqs[..|reqs|] == reqs;
  }

  /** The ranges of addresses that a ledger stands for. */
  lemma ServedRanges(k0: nat, u0: nat, kb: seq<bool>, ub: seq<bool>, reqs: seq<Request>, rs: seq<int>, kf: nat, uf: nat,
                     ptrs: seq<nat>)
    requires Ledger(k0, u0, kb, ub, reqs, rs) && |ptrs| == |reqs| == |rs| && (kf + |kb| <= uf || uf + |ub| <= kf)
    requires forall x {:trigger ptrs[x]} :: 0 <= x < |ptrs| ==>
      ptrs[x] == PageAddress(if reqs[x].user then uf else kf, rs[x])
    ensures forall j {:trigger ptrs[j]} :: 0 <= j < |ptrs| ==>
      (ptrs[j] == 0 <==> rs[j] == -1) && (ptrs[j] != 0 ==>
        && PHYS_BASE + 4096 * (if reqs[j].user then uf else kf) <= ptrs[j]
        && ptrs[j] + 4096 * reqs[j].n <= PHYS_BASE + 4096 * (if reqs[j].user then uf + |ub| else kf + |kb|))
    ensures forall j, k {:trigger ptrs[j], ptrs[k]} :: 0 <= j < k < |ptrs| && ptrs[j] != 0 && ptrs[k] != 0 ==>
      ptrs[j] + 4096 * reqs[j].n <= ptrs[k] || ptrs[k] + 4096 * reqs[k].n <= ptrs[j]
  {
    hide Ledger;
    forall j | 0 <= j < |ptrs|
      ensures -1 <= rs[j] && (rs[j] != -1 ==> rs[j] + reqs[j].n <= |if reqs[j].user then ub else kb|)
    {
      LedgerAt(k0, u0, kb, ub, reqs, rs, j);
    }
    forall j, k | 0 <= j < k < |ptrs| && ptrs[j] != 0 && ptrs[k] != 0
      ensures ptrs[j] + 4096 * reqs[j].n <= ptrs[k] || ptrs[k] + 4096 * reqs[k].n <= ptrs[j]
    {
      LedgerApart(k0, u0, kb, ub, reqs, rs, j, k);
    }
  }

  // ----- Where the kernel puts the bitmaps

  /** `bmp_bytes`: the bytes of one bitmap of a pool. */
  function BitmapBytes(pages: nat): nat { (pages + 7) / 8 }

  /** `md_pages`: the pages that `memory_pool_init` marks for the two bitmaps of a pool. */
  function MetadataPages(pages: nat): nat { (2 * BitmapBytes(pages) + 4095) / 4096 }

  /** A bitmap has a bit for each page, in as few bytes as can be, and two of them as few pages. */
  lemma MetadataIs(pages: nat)
    ensures pages <= 8 * BitmapBytes(pages) < pages + 8
    ensures 2 * BitmapBytes(pages) <= 4096 * MetadataPages(pages) < 2 * BitmapBytes(pages) + 4096
  {
  }

  /** A pool's bits when only its first `md` pages are marked. */
  ghost function FirstMarked(pages: nat, md: nat): (b: seq<bool>)
    ensures |b| == pages
  {
    seq(pages, i => i < md)
  }

  /** The kernel pool's two bitmaps start the pool and lie on the pages marked for them, whatever else is marked. */
  lemma KernelBitmapsSheltered(b: seq<bool>, first: nat)
    requires forall i :: 0 <= i < |b| && i < MetadataPages(|b|) ==> b[i]
    ensures Sheltered(b, first, 32768 * first, 16 * BitmapBytes(|b|))
  {
    assert 2 * BitmapBytes(|b|) <= 4096 * MetadataPages(|b|);
  }

  /** `n` bits that follow the kernel pool's bitmaps lie on marked pages exactly when they fit on the last of these. */
  lemma FollowingSheltered(first: nat, k: nat, n: nat)
    requires MetadataPages(k) < k
    ensures Sheltered(FirstMarked(k, MetadataPages(k)), first, 32768 * first + 16 * BitmapBytes(k), n)
      <==> 16 * BitmapBytes(k) + n <= 32768 * MetadataPages(k)
  {
    var md, b, lo := MetadataPages(k), FirstMarked(k, MetadataPages(k)), 32768 * first + 16 * BitmapBytes(k);
    assert 16 * BitmapBytes(k) <= 32768 * md;
    if 16 * BitmapBytes(k) + n > 32768 * md {
      assert !b[md] && Touches(first + md, 1, lo, n);
    }
  }

  lemma MetadataSmall(k: nat)
    requires 2 <= k
    ensures MetadataPages(k) < k
  {
    var c := BitmapBytes(k);
    assert 8 * c <= k + 7;
    assert 4096 * MetadataPages(k) <= 2 * c + 4095;
  }

  /**
    `paging_init` puts the user pool's bitmaps behind the kernel pool's, on kernel pages.  No free kernel page holds a
    bit of the user pool's allocation bitmap exactly when it fits on the pages marked for the kernel's; likewise for
    both bitmaps of the user pool.
   */
  lemma UserBitmapsSheltered(first: nat, total: nat, k: nat, u: nat)
    requires 2 <= total && k == total / 2 && u == total - total / 2
    ensures Sheltered(FirstMarked(k, MetadataPages(k)), first, 32768 * first + 16 * BitmapBytes(k), u)
      <==> 16 * BitmapBytes(k) + u <= 32768 * MetadataPages(k)
    ensures Sheltered(FirstMarked(k, MetadataPages(k)), first, 32768 * first + 16 * BitmapBytes(k), 16 * BitmapBytes(u))
      <==> 2 * BitmapBytes(k) + 2 * BitmapBytes(u) <= 4096 * MetadataPages(k)
  {
    if k >= 2 {
      MetadataSmall(k);
      FollowingSheltered(first, k, u);
      FollowingSheltered(first, k, 16 * BitmapBytes(u));
    } else {
      assert k == 1 && u <= 2 && BitmapBytes(k) == 1 && BitmapBytes(u) == 1 && MetadataPages(k) == 1;
    }
  }

  /** Then the first page that the kernel asks for, its root table, is zeroed over the user pool's bitmap. */
  lemma FirstPageWipes(first: nat, total: nat, k: nat, u: nat, i: int, b': seq<bool>)
    requires 4 <= total && k == total / 2 && u == total - total / 2
    requires Took(FirstMarked(k, MetadataPages(k)), 1, i, b')
    ensures i == MetadataPages(k)
    ensures Touches(first + i, 1, 32768 * first + 16 * BitmapBytes(k), u)
      <==> 16 * BitmapBytes(k) + u > 32768 * MetadataPages(k)
  {
    var b, md := FirstMarked(k, MetadataPages(k)), MetadataPages(k);
    MetadataSmall(k);
    assert IsRun(b, md, 1, false);
    assert i != -1 && !b[i];
    assert 16 * BitmapBytes(k) <= 32768 * md;
  }

  /** It happens with 128 MiB in the pools. */
  lemma WipedExample()
    ensures MetadataPages(16384) == 1 && 16 * BitmapBytes(16384) + 16384 > 32768 * MetadataPages(16384)
  {
  }
}
