/** The `wdmalloc` allocator over a byte array, refining the layouts of module HeapLayout. */
module Wdmalloc {
  import opened Bytes
  import opened CString
  import opened HeapLayout
  import opened HeapMemory
  import opened HeapSafety
  import opened HeapHeaders

  /** `WDM_IN_HEAP`. */
  predicate InHeap(start: nat, size: nat, p: int) {
    start <= p < start + size
  }

  class Heap {
    const ram: array<byte>
    var freelistHead: nat
    var heapStart: nat
    var heapSize: nat
    ghost var hdrs: map<nat, Hdr>
    ghost var lay: Layout

    ghost predicate Backed()
      reads this, ram
    {
      ram.Length <= U64 && Holds(ram[..], hdrs)
    }

    // ----- Field access

    function Load(a: nat, f: Field): (v: nat)
      requires Backed() && a in hdrs
      reads this, ram
      ensures v == f.Get(hdrs[a])
    {
      assert HeldAt(ram[..], hdrs, a);
      FieldRead(ram[..], a, f);
      assert ram[..][a + f.Ofs()..a + f.Ofs() + f.Width()] == ram[a + f.Ofs()..a + f.Ofs() + f.Width()];
      LittleEndian(ram[a + f.Ofs()..a + f.Ofs() + f.Width()])
    }

    method Poke(a: nat, k: nat, v: nat)
      requires a + k <= ram.Length
      modifies ram
      ensures ram[..] == Store(old(ram[..]), a, k, v)
    {
      ghost var m := ram[..];
      ghost var code := Encode(v, m[a..a + k]);
      var w := v;
      for i := 0 to k
        invariant forall x :: 0 <= x < ram.Length && !(a <= x < a + i) ==> ram[x] == m[x]
        invariant forall j :: 0 <= j < i ==> ram[a + j] == code[j]
        invariant Encode(w, m[a + i..a + k]) == code[i..]
      {
        assert m[a + i..a + k][1..] == m[a + i + 1..a + k];
        assert code[i] == code[i..][0] && code[i..][1..] == code[i + 1..];
        ram[a + i] := w % 256;
        w := w / 256;
      }
      assert forall x :: a <= x < a + k ==> ram[x] == code[x - a];
    }

    method Write(a: nat, f: Field, v: nat)
      requires Backed() && a in hdrs && v < f.Limit()
      modifies ram, this`hdrs
      ensures Backed()
      ensures hdrs == Upd(old(hdrs), a, f, v)
      ensures Frames(old(ram[..]), ram[..], old(hdrs).Keys)
    {
      assert HeldAt(ram[..], hdrs, a);
      Poke(a + f.Ofs(), f.Width(), v);
      HeaderWritten(old(ram[..]), hdrs, a, f, v);
      hdrs := Upd(hdrs, a, f, v);
    }

    // ----- The state of the heap

    ghost predicate Shown()
      reads this, ram
    {
      && Backed()
      && Shows(hdrs, lay.blocks)
      && Chain(hdrs, freelistHead, lay.fl)
      && heapStart == lay.blocks.start
      && heapStart + heapSize == lay.blocks.end <= ram.Length
    }

    ghost predicate Valid()
      reads this, ram
    {
      Shown() && Sound(lay)
    }

    /**
      What a valid heap looks like in memory: the size before, the size with bit 15 set if used, and then the next free
      block's address or the eight bytes of the magic word, least significant byte first.
     */
    lemma HeaderBytes(a: nat)
      requires Valid() && a in lay.blocks.tags
      ensures a + 12 <= ram.Length && ram[a] as int + 256 * ram[a + 1] as int == lay.blocks.tags[a].prev
      ensures ram[a + 2] as int + 256 * ram[a + 3] as int ==
        lay.blocks.tags[a].size + if lay.blocks.tags[a].free then 0 else 0x8000
      ensures !lay.blocks.tags[a].free ==> ram[a + 4..a + 12] == [0xFE, 0xCA, 0xBE, 0xBA, 0xEF, 0xBE, 0xAD, 0xDE]
      ensures forall i :: 0 <= i < |lay.fl| && lay.fl[i] == a ==>
        LittleEndian(ram[a + 4..a + 12]) == if i + 1 < |lay.fl| then lay.fl[i + 1] else 0
    {
      assert HeldAt(ram[..], hdrs, a) && ShownAt(hdrs, lay.blocks, a);
      HeaderFields(ram[..], a);
      assert ram[..][a + 4..a + 12] == ram[a + 4..a + 12];
      MagicBytes(ram[a + 4..a + 12]);
      forall i | 0 <= i < |lay.fl| && lay.fl[i] == a ensures hdrs[a].lom == Link(lay.fl, i + 1) {
        assert LinkAt(hdrs, lay.fl, i);
      }
    }

    /** Take `curr` out of the freelist, given its predecessor there (0 if it is the head). */
    method Unlink(prev: nat, curr: nat, ghost j: nat)
      requires Backed() && Chain(hdrs, freelistHead, lay.fl) && Distinct(lay.fl) && 0 !in lay.fl
      requires j < |lay.fl| && curr == lay.fl[j] && prev == Before(lay.fl, j)
      modifies ram, this`hdrs, this`freelistHead, this`lay
      ensures Backed() && Frames(old(ram[..]), ram[..], old(hdrs).Keys)
      ensures lay == old(lay).(fl := RemoveAt(old(lay).fl, j))
      ensures Chain(hdrs, freelistHead, lay.fl)
      ensures curr in old(hdrs) && (j > 0 ==> prev in old(hdrs))
      ensures freelistHead == if j == 0 then old(hdrs)[curr].lom else old(freelistHead)
      ensures hdrs == Pointed(old(hdrs), old(lay).fl, j, old(hdrs)[curr].lom)
    {
      assert LinkAt(hdrs, lay.fl, j);
      if j > 0 { assert LinkAt(hdrs, lay.fl, j - 1) && lay.fl[j - 1] in lay.fl; }
      ghost var h0, head0 := hdrs, freelistHead;
      forall i | 0 <= i < |lay.fl| && i != j && i + 1 != j ensures lay.fl[i] in hdrs { assert LinkAt(hdrs, lay.fl, i); }
      var next := Load(curr, Lom);
      assert HeldAt(ram[..], hdrs, curr);
      FieldBound(ram[..], curr, Lom);
      if prev != 0 {
        Write(prev, Lom, next);
      } else {
        freelistHead := next;
      }
      UnlinkChain(h0, hdrs, head0, lay.fl, j);
      lay := lay.(fl := RemoveAt(lay.fl, j));
    }

    /** The linear search for a listed block; `prev` is its predecessor on the list. */
    method Find(target: nat) returns (prev: nat, ghost j: nat)
      requires Backed() && Chain(hdrs, freelistHead, lay.fl) && 0 !in lay.fl && target in lay.fl
      ensures j < |lay.fl| && lay.fl[j] == target && target !in lay.fl[..j] && j == Pos(lay.fl, target)
      ensures prev == Before(lay.fl, j) && (prev != 0 ==> prev in hdrs)
    {
      var curr := freelistHead;
      prev := 0;
      j := 0;
      while curr != target && curr != 0
        invariant j <= |lay.fl| && curr == Link(lay.fl, j)
        invariant prev == Before(lay.fl, j)
        invariant target !in lay.fl[..j]
        decreases |lay.fl| - j
      {
        assert LinkAt(hdrs, lay.fl, j);
        prev := curr;
        curr := Load(curr, Lom);
        j := j + 1;
      }
      assert j < |lay.fl|;
      PosIs(lay.fl, target, j);
      if j > 0 { assert LinkAt(hdrs, lay.fl, j - 1); }
    }

    // ----- wdmalloc

    /** Every listed block has a header whose size fits the 15 size bits. */
    ghost predicate Searchable()
      reads this
    {
      forall i {:trigger lay.fl[i]} :: 0 <= i < |lay.fl| ==>
        var a := lay.fl[i];
        && a != 0 && a in lay.blocks.tags && a in hdrs
        && lay.blocks.tags[a].size < ALLOC_BIT && hdrs[a].sz == Raw(lay.blocks.tags[a])
    }

    method Search(n: nat) returns (min: nat, minPrev: nat, minSz: nat, ghost k: int)
      requires Backed() && Chain(hdrs, freelistHead, lay.fl) && Searchable() && n < U16
      ensures k == BestFit(lay, n, |lay.fl|)
      ensures if k < 0 then min == 0
        else min == lay.fl[k] && minSz == lay.blocks.tags[min].size && minPrev == Before(lay.fl, k)
    {
      var curr := freelistHead;
      var prev := 0;
      min, minPrev, minSz, k := 0, 0, 0xFFFF, -1;
      ghost var i := 0;
      ghost var L := lay;
      while curr != 0
        invariant i <= |L.fl| && curr == Link(L.fl, i) && prev == Before(L.fl, i)
        invariant k == BestFit(L, n, i)
        invariant if k < 0 then min == 0 && minSz == 0xFFFF
          else min == L.fl[k] && minSz == L.blocks.tags[min].size && minPrev == Before(L.fl, k)
        decreases |L.fl| - i
      {
        assert i < |L.fl| && curr == L.fl[i];
        assert LinkAt(hdrs, L.fl, i);
        var sz := Load(curr, Sz);
        assert sz < ALLOC_BIT && sz >= n <==> Fits(L.blocks, curr, n);
        if sz < ALLOC_BIT && sz >= n && sz < minSz {
          min, minPrev, minSz, k := curr, prev, sz, i;
        }
        prev := curr;
        curr := Load(curr, Lom);
        i := i + 1;
      }
    }

    /** Start treating the 12 bytes at `b` as a header. */
    ghost method Bless(b: nat)
      requires Backed() && b + HDR <= ram.Length
      requires forall a :: a in hdrs ==> a + HDR <= b || b + HDR <= a
      modifies this`hdrs
      ensures Backed() && hdrs == old(hdrs)[b := HeaderAt(ram[..], b)]
    {
      ghost var more := hdrs[b := HeaderAt(ram[..], b)];
      forall a | a in more ensures HeldAt(ram[..], more, a) {
        assert a in hdrs ==> HeldAt(ram[..], hdrs, a);
      }
      hdrs := more;
    }

    /** Write a whole header at `b`, where no header has been. */
    method NewHeader(b: nat, prev: nat, sz: nat, lom: nat)
      requires Backed() && b + HDR <= ram.Length && prev < U16 && sz < U16 && lom < U64
      requires forall a :: a in hdrs ==> a + HDR <= b || b + HDR <= a
      modifies ram, this`hdrs
      ensures Backed() && hdrs == old(hdrs)[b := Hdr(prev, sz, lom)]
      ensures Frames(old(ram[..]), ram[..], old(hdrs).Keys + {b})
    {
      ghost var K := hdrs.Keys + {b};
      Bless(b);
      Write(b, PrevSz, prev);
      ghost var m := ram[..];
      Write(b, Sz, sz);
      FramesTrans(old(ram[..]), m, ram[..], K, K);
      m := ram[..];
      Write(b, Lom, lom);
      FramesTrans(old(ram[..]), m, ram[..], K, K);
    }

    /** `if(WDM_IN_HEAP(c)) c->prev_sz = v`. */
    method TellNext(c: nat, v: nat)
      requires Backed() && v < U16 && (InHeap(heapStart, heapSize, c) ==> c in hdrs)
      modifies ram, this`hdrs
      ensures Backed()
      ensures hdrs == Told(old(hdrs), c, v, InHeap(heapStart, heapSize, c))
      ensures Frames(old(ram[..]), ram[..], old(hdrs).Keys)
    {
      if InHeap(heapStart, heapSize, c) {
        Write(c, PrevSz, v);
      }
    }

    /** Hand out the last `n` bytes of the free block `min` behind a header of their own. */
    method Carve(min: nat, n: nat) returns (r: nat)
      requires Backed() && min in hdrs && n + HDR <= hdrs[min].sz < ALLOC_BIT
      requires var s := hdrs[min].sz - n - HDR; var b, c := min + HDR + s, min + HDR + hdrs[min].sz;
        && b + HDR <= ram.Length && (forall a :: a in hdrs ==> a + HDR <= b || b + HDR <= a)
        && (InHeap(heapStart, heapSize, c) ==> c in hdrs)
      modifies ram, this`hdrs
      ensures Backed()
      ensures r == min + HDR + old(hdrs)[min].sz - n
      ensures hdrs == Carved(old(hdrs), min, old(hdrs)[min].sz - n - HDR, n,
        InHeap(heapStart, heapSize, min + HDR + old(hdrs)[min].sz))
      ensures Frames(old(ram[..]), ram[..], old(hdrs).Keys + {r - HDR})
    {
      ghost var h0, m0 := hdrs, ram[..];
      var s := Load(min, Sz) - n - HDR;
      Write(min, Sz, s);
      ghost var m1 := ram[..];
      var b := min + HDR + s;
      NewHeader(b, s, n + ALLOC_BIT, MAGIC);
      ghost var m2 := ram[..];
      TellNext(b + HDR + n, n);
      FramesTrans(m0, m1, m2, h0.Keys, h0.Keys + {b});
      FramesTrans(m0, m2, ram[..], h0.Keys + {b}, h0.Keys + {b});
      r := b + HDR;
    }

    /** After `wdmalloc_init` with a size beyond 15 bits: the one listed header reads as allocated. */
    ghost predicate Oversize()
      reads this, ram
    {
      && Backed()
      && MAX_HEAP < heapSize < U16 && 0 < heapStart == freelistHead
      && heapStart + heapSize <= ram.Length
      && hdrs == map[heapStart := Hdr(0, heapSize - HDR, 0)]
      && lay == Layout(Blocks(heapStart, heapStart + heapSize,
                              map[heapStart := Tag(0, heapSize - HDR - ALLOC_BIT, false)]), [heapStart])
    }

    lemma ReadyToSearch()
      requires Valid() || Oversize()
      ensures Chain(hdrs, freelistHead, lay.fl) && Searchable()
      ensures Distinct(lay.fl) && (freelistHead == 0 <==> lay.fl == [])
      ensures Valid() ==> hdrs.Keys == lay.blocks.tags.Keys && Tiled(lay.blocks)
    {
      if Valid() {
        forall i | 0 <= i < |lay.fl| ensures
          var a := lay.fl[i];
          && a != 0 && a in lay.blocks.tags && a in hdrs
          && lay.blocks.tags[a].size < ALLOC_BIT && hdrs[a].sz == Raw(lay.blocks.tags[a])
        {
          var a := lay.fl[i];
          assert a in lay.fl && IsFree(lay.blocks, a);
          assert ShownAt(hdrs, lay.blocks, a) && TileAt(lay.blocks, a) && Next(lay.blocks, a) >= a;
        }
      } else {
        assert LinkAt(hdrs, lay.fl, 0);
      }
    }

    /** Before `wdmalloc_init`: there is no heap. */
    ghost predicate Unset()
      reads this
    {
      && ram.Length <= U64 && freelistHead == 0 && heapStart == 0 && heapSize == 0
      && hdrs == map[] && lay == Layout(Blocks(0, 0, map[]), [])
    }

    constructor (memory: array<byte>)
      requires memory.Length <= U64
      ensures ram == memory && Unset()
    {
      ram, freelistHead, heapStart, heapSize := memory, 0, 0, 0;
      hdrs, lay := map[], Layout(Blocks(0, 0, map[]), []);
    }

    /** `wdmalloc_init`: one free block fills the region, provided its size fits 15 bits. */
    method Init(start: nat, size: nat)
      requires 0 < start && HDR < size < U16 && start + size <= ram.Length <= U64
      modifies ram, this
      ensures heapStart == start && heapSize == size
      ensures size <= 32779 ==> Valid() && lay == Initial(start, size)
      ensures size > 32779 ==> Oversize()
      ensures forall x :: 0 <= x < ram.Length && !(start <= x < start + HDR) ==> ram[x] == old(ram[x])
    {
      heapStart, heapSize, freelistHead := start, size, start;
      hdrs := map[];
      NewHeader(start, 0, size - HDR, 0);
      assert forall x :: !(start <= x < start + HDR) ==> Clear({start}, x);
      if size <= MAX_HEAP {
        lay := Initial(start, size);
        InitialSound(start, size);
      } else {
        lay := Layout(Blocks(start, start + size, map[start := Tag(0, size - HDR - ALLOC_BIT, false)]), [start]);
      }
    }

    method TakeWhole(min: nat, minPrev: nat, ghost k: nat)
      requires Backed() && Chain(hdrs, freelistHead, lay.fl) && Searchable() && Distinct(lay.fl)
      requires k < |lay.fl| && min == lay.fl[k] && minPrev == Before(lay.fl, k) && IsFree(lay.blocks, min)
      modifies ram, this`hdrs, this`freelistHead, this`lay
      ensures Backed() && Frames(old(ram[..]), ram[..], old(hdrs).Keys)
      ensures lay == old(lay).(fl := RemoveAt(old(lay).fl, k))
      ensures min in old(hdrs) && (k > 0 ==> minPrev in old(hdrs))
      ensures var h := Pointed(old(hdrs), old(lay).fl, k, old(hdrs)[min].lom);
        && Chain(h, freelistHead, lay.fl)
        && hdrs == Upd(Upd(h, min, Lom, MAGIC), min, Sz, h[min].sz + ALLOC_BIT)
    {
      ghost var m0, K := ram[..], hdrs.Keys;
      Unlink(minPrev, min, k);
      ghost var m1 := ram[..];
      Write(min, Lom, MAGIC);
      ghost var m2 := ram[..];
      var sz := Load(min, Sz);
      Write(min, Sz, sz + ALLOC_BIT);
      FramesTrans(m0, m1, m2, K, K);
      FramesTrans(m0, m2, ram[..], K, K);
    }

    /** The splitting branch of `wdmalloc`, for the best fit at position `k`. */
    method MallocSplit(min: nat, n: nat, ghost k: nat) returns (r: nat)
      requires Valid() && k < |lay.fl| && k == BestFit(lay, n, |lay.fl|) && min == lay.fl[k]
      requires n + HDR <= lay.blocks.tags[min].size
      modifies ram, this`hdrs, this`lay
      ensures Valid() && (lay, r) == HeapLayout.Malloc(old(lay), n)
      ensures KeepsPayloads(old(ram[..]), ram[..], old(lay).blocks, {})
    {
      hide Split, Carved;
      ghost var L, m0, h0 := lay, ram[..], hdrs;
      ghost var s := L.blocks.tags[min].size - n - HDR;
      MallocSound(L, n);
      CarveReady(L, hdrs, min);
      RoomForHeader(L.blocks, min, min + HDR + s);
      r := Carve(min, n);
      CarvedShown(L, h0, freelistHead, min, s, n, r - HDR, Next(L.blocks, min), hdrs);
      KeepsFromSplit(m0, ram[..], L.blocks, min, r - HDR);
      lay := HeapLayout.Malloc(L, n).0;
    }

    /** The whole-block branch of `wdmalloc`. */
    method MallocWhole(min: nat, minPrev: nat, ghost n: nat, ghost k: nat) returns (r: nat)
      requires Valid() && k < |lay.fl| && k == BestFit(lay, n, |lay.fl|) && min == lay.fl[k]
      requires n + HDR > lay.blocks.tags[min].size && minPrev == Before(lay.fl, k)
      modifies ram, this`hdrs, this`lay, this`freelistHead
      ensures Valid() && (lay, r) == HeapLayout.Malloc(old(lay), n)
      ensures KeepsPayloads(old(ram[..]), ram[..], old(lay).blocks, {})
    {
      hide Mark, Split, RemoveAt, Pointed, Upd, BestFit, Chain, Holds;
      ghost var L, m0, h0 := lay, ram[..], hdrs;
      ReadyToSearch();
      MallocSound(L, n);
      TakeWhole(min, minPrev, k);
      TakenShown(L, h0, Pointed(h0, L.fl, k, h0[min].lom), hdrs, freelistHead, k, min);
      KeepsFromFrames(m0, ram[..], L.blocks);
      lay := HeapLayout.Malloc(L, n).0;
      r := min + HDR;
    }

    /** `wdmalloc`. */
    method Malloc(n: nat) returns (r: nat)
      requires n < U16 && (Valid() || Oversize() || Unset())
      modifies ram, this
      ensures heapStart == old(heapStart) && heapSize == old(heapSize)
      ensures (lay, r) == HeapLayout.Malloc(old(lay), n)
      ensures old(Valid()) ==> Valid()
      ensures old(Oversize()) ==> r == 0 && Oversize()
      ensures old(Unset()) ==> r == 0 && Unset()
      ensures r == 0 ==> ram[..] == old(ram[..])
      ensures KeepsPayloads(old(ram[..]), ram[..], old(lay).blocks, {})
    {
      hide BestFit, Holds, Chain;
      if !Unset() { ReadyToSearch(); }
      if freelistHead == 0 || heapStart == 0 || heapSize == 0 {
        return 0;
      }
      var min, minPrev, minSz, k := Search(n);
      if min == 0 || minSz == 0xFFFF {
        return 0;
      }
      var sz := Load(min, Sz);
      if sz > n && sz - n >= HDR {
        r := MallocSplit(min, n, k);
      } else {
        r := MallocWhole(min, minPrev, n, k);
      }
    }

    // ----- wdfree and coalesce

    /** Stop treating the bytes at `K` as headers. */
    ghost method Forget(K: set<nat>)
      requires Backed()
      modifies this`hdrs
      ensures Backed() && hdrs == old(hdrs) - K
    {
      forall a | a in hdrs - K ensures HeldAt(ram[..], hdrs - K, a) { assert HeldAt(ram[..], hdrs, a); }
      hdrs := hdrs - K;
    }

    /** The writes that let `p` swallow `a`. */
    method JoinPrev(p: nat, a: nat, n: nat)
      requires Backed() && p in hdrs && a in hdrs && hdrs[p].sz + HDR + hdrs[a].sz < U16 &&
        (InHeap(heapStart, heapSize, n) ==> n in hdrs)
      modifies ram, this`hdrs
      ensures Backed() && Frames(old(ram[..]), ram[..], old(hdrs).Keys)
      ensures hdrs == JoinedPrev(old(hdrs), p, n, old(hdrs)[p].sz + HDR + old(hdrs)[a].sz,
        InHeap(heapStart, heapSize, n))
    {
      ghost var m0 := ram[..];
      var s := Load(p, Sz) + HDR + Load(a, Sz);
      Write(p, Sz, s);
      ghost var m1 := ram[..];
      TellNext(n, s);
      FramesTrans(m0, m1, ram[..], old(hdrs).Keys, old(hdrs).Keys);
    }

    /** Give header `a` size `s` and link `next`. */
    method SetFree(a: nat, s: nat, next: nat)
      requires Backed() && a in hdrs && s < U16 && next < U64
      modifies ram, this`hdrs
      ensures Backed() && Frames(old(ram[..]), ram[..], old(hdrs).Keys)
      ensures hdrs == Upd(Upd(old(hdrs), a, Sz, s), a, Lom, next)
    {
      Write(a, Sz, s);
      ghost var m1 := ram[..];
      Write(a, Lom, next);
      FramesTrans(old(ram[..]), m1, ram[..], old(hdrs).Keys, old(hdrs).Keys);
    }

    /** What points to the listed block `n` points to `a` instead. */
    method Redirect(n: nat, a: nat) returns (ghost j: nat)
      requires Backed() && Chain(hdrs, freelistHead, lay.fl) && 0 !in lay.fl && n in lay.fl && a < U64
      modifies ram, this`hdrs, this`freelistHead
      ensures Backed() && Frames(old(ram[..]), ram[..], old(hdrs).Keys)
      ensures j < |lay.fl| && j == Pos(lay.fl, n) && (j > 0 ==> lay.fl[j - 1] in old(hdrs))
      ensures freelistHead == if j == 0 then a else old(freelistHead)
      ensures hdrs == Pointed(old(hdrs), lay.fl, j, a)
    {
      hide Pos, Frames;
      FramesRefl(ram[..], hdrs.Keys);
      var prev;
      prev, j := Find(n);
      if j > 0 { assert lay.fl[j - 1] in lay.fl; }
      if prev != 0 {
        Write(prev, Lom, a);
      } else {
        freelistHead := a;
      }
    }

    /** The writes that let `a` take the place of its free successor `n`, also on the freelist. */
    method JoinNext(a: nat, n: nat, c: nat) returns (ghost j: nat)
      requires Backed() && Chain(hdrs, freelistHead, lay.fl) && 0 !in lay.fl && n in lay.fl && a !in lay.fl
      requires 0 < a < U64 && a in hdrs && n in hdrs && hdrs[a].sz + HDR + hdrs[n].sz < U16 &&
        (InHeap(heapStart, heapSize, c) ==> c in hdrs)
      modifies ram, this`hdrs, this`freelistHead
      ensures Backed() && Frames(old(ram[..]), ram[..], old(hdrs).Keys)
      ensures j < |lay.fl| && j == Pos(lay.fl, n) && (j > 0 ==> lay.fl[j - 1] in old(hdrs))
      ensures freelistHead == if j == 0 then a else old(freelistHead)
      ensures hdrs == JoinedNext(old(hdrs), a, n, c, old(hdrs)[a].sz + HDR + old(hdrs)[n].sz, lay.fl, j,
        InHeap(heapStart, heapSize, c))
    {
      hide Pos, Frames, Pointed, Chain;
      ghost var h0, m0, K := hdrs, ram[..], hdrs.Keys;
      var s := Load(a, Sz) + HDR + Load(n, Sz);
      LinkBound(n);
      SetFree(a, s, Load(n, Lom));
      ghost var m1 := ram[..];
      ChainFrame(h0, hdrs, freelistHead, lay.fl);
      j := Redirect(n, a);
      ghost var m2 := ram[..];
      TellNext(c, s);
      FramesTrans(m0, m1, m2, K, K);
      FramesTrans(m0, m2, ram[..], K, K);
    }

    /** The writes that let `p` swallow `a` and its free successor `n`, which leaves the freelist. */
    method JoinBoth(p: nat, a: nat, n: nat, c: nat) returns (ghost j: nat)
      requires Backed() && Chain(hdrs, freelistHead, lay.fl) && Distinct(lay.fl) && 0 !in lay.fl && n in lay.fl
      requires p in hdrs && a in hdrs && n in hdrs && p != a && p != n
      requires hdrs[p].sz + HDR + hdrs[a].sz + HDR + hdrs[n].sz < U16 && (InHeap(heapStart, heapSize, c) ==> c in hdrs)
      modifies ram, this`hdrs, this`freelistHead, this`lay
      ensures Backed() && Frames(old(ram[..]), ram[..], old(hdrs).Keys)
      ensures j < |old(lay).fl| && j == Pos(old(lay).fl, n) && (j > 0 ==> old(lay).fl[j - 1] in old(hdrs))
      ensures freelistHead == if j == 0 then old(hdrs)[n].lom else old(freelistHead)
      ensures hdrs == JoinedBoth(old(hdrs), p, n, c, old(hdrs)[p].sz + HDR + old(hdrs)[a].sz + HDR + old(hdrs)[n].sz,
                                 old(lay).fl, j, InHeap(heapStart, heapSize, c))
    {
      hide Pos, Distinct;
      ghost var h0, m0, K := hdrs, ram[..], hdrs.Keys;
      var s := Load(p, Sz) + HDR + Load(a, Sz) + HDR + Load(n, Sz);
      Write(p, Sz, s);
      ghost var m1 := ram[..];
      ChainFrame(h0, hdrs, freelistHead, lay.fl);
      var prev;
      prev, j := Find(n);
      if j > 0 { assert lay.fl[j - 1] in lay.fl; }
      Unlink(prev, n, j);
      ghost var m2 := ram[..];
      TellNext(c, s);
      FramesTrans(m0, m1, m2, K, K);
      FramesTrans(m0, m2, ram[..], K, K);
    }

    method MergeBoth(a: nat, p: nat, n: nat, c: nat)
      requires Shown() && Around(lay, hdrs, a, p, n) && PrevFree(lay.blocks, a) && NextFree(lay.blocks, a) &&
        c == Next(lay.blocks, n)
      modifies ram, this`hdrs, this`lay, this`freelistHead
      ensures Shown() && lay == HeapLayout.Coalesce(old(lay), a)
      ensures Frames(old(ram[..]), ram[..], old(hdrs).Keys)
    {
      hide Fuse, JoinedBoth, TileAt, Pos, Link;
      ghost var L, h0, head0 := lay, hdrs, freelistHead;
      Neighbours(L, hdrs, a);
      LooseList(L, hdrs, a);
      SizesFit(L.blocks, n);
      ghost var j := JoinBoth(p, a, n, c);
      Forget({a, n});
      JoinedBothDone(L, h0, head0, a, p, n, c, h0[p].sz + HDR + h0[a].sz + HDR + h0[n].sz, j, hdrs);
      lay := HeapLayout.Coalesce(L, a);
    }

    method MergePrev(a: nat, p: nat, n: nat)
      requires Shown() && Around(lay, hdrs, a, p, n) && PrevFree(lay.blocks, a) && !NextFree(lay.blocks, a)
      modifies ram, this`hdrs, this`lay, this`freelistHead
      ensures Shown() && lay == HeapLayout.Coalesce(old(lay), a)
      ensures Frames(old(ram[..]), ram[..], old(hdrs).Keys)
    {
      hide Fuse, JoinedPrev;
      ghost var L, h0, head0 := lay, hdrs, freelistHead;
      Neighbours(L, hdrs, a);
      JoinPrev(p, a, n);
      Forget({a});
      JoinedPrevDone(L, h0, head0, a, p, n, h0[p].sz + HDR + h0[a].sz, hdrs);
      lay := HeapLayout.Coalesce(L, a);
    }

    method MergeNext(a: nat, ghost p: int, n: nat, c: nat)
      requires Shown() && Around(lay, hdrs, a, p, n) && !PrevFree(lay.blocks, a) && NextFree(lay.blocks, a) &&
        c == Next(lay.blocks, n)
      modifies ram, this`hdrs, this`lay, this`freelistHead
      ensures Shown() && lay == HeapLayout.Coalesce(old(lay), a)
      ensures Frames(old(ram[..]), ram[..], old(hdrs).Keys)
    {
      hide Fuse, JoinedNext, TileAt, Pos, Link;
      ghost var L, h0, head0 := lay, hdrs, freelistHead;
      Neighbours(L, hdrs, a);
      LooseList(L, hdrs, a);
      SizesFit(L.blocks, n);
      ghost var j := JoinNext(a, n, c);
      Forget({n});
      JoinedNextDone(L, h0, head0, a, n, c, h0[a].sz + HDR + h0[n].sz, j, hdrs);
      lay := HeapLayout.Coalesce(L, a);
    }

    method MergeNone(a: nat, ghost p: int, ghost n: nat)
      requires Shown() && Around(lay, hdrs, a, p, n) && !PrevFree(lay.blocks, a) && !NextFree(lay.blocks, a)
      modifies ram, this`hdrs, this`lay, this`freelistHead
      ensures Shown() && lay == HeapLayout.Coalesce(old(lay), a)
      ensures Frames(old(ram[..]), ram[..], old(hdrs).Keys)
    {
      ghost var L, h0, head0 := lay, hdrs, freelistHead;
      Neighbours(L, hdrs, a);
      LooseList(L, hdrs, a);
      Write(a, Lom, freelistHead);
      freelistHead := a;
      RelinkedShows(h0, hdrs, L.blocks);
      ChainFrame(h0, hdrs, head0, L.fl);
      PushChain(hdrs, head0, L.fl, a);
      lay := HeapLayout.Coalesce(L, a);
    }

    /** `coalesce`. */
    method Coalesce(a: nat)
      requires Shown() && Loose(lay, a)
      modifies ram, this`hdrs, this`lay, this`freelistHead
      ensures Shown() && lay == HeapLayout.Coalesce(old(lay), a)
      ensures Frames(old(ram[..]), ram[..], old(hdrs).Keys)
    {
      Neighbours(lay, hdrs, a);
      var p := a - Load(a, PrevSz) - HDR;
      var n := a + HDR + Load(a, Sz);
      var prevFree := InHeap(heapStart, heapSize, p) && Load(p, Sz) < ALLOC_BIT;
      var nextFree := InHeap(heapStart, heapSize, n) && Load(n, Sz) < ALLOC_BIT;
      if InHeap(heapStart, heapSize, n) { SizesFit(lay.blocks, n); }
      if InHeap(heapStart, heapSize, p) { SizesFit(lay.blocks, p); }
      assert prevFree == PrevFree(lay.blocks, a) && nextFree == NextFree(lay.blocks, a);
      if prevFree && nextFree {
        MergeBoth(a, p, n, n + HDR + Load(n, Sz));
      } else if prevFree {
        MergePrev(a, p, n);
      } else if nextFree {
        MergeNext(a, p, n, n + HDR + Load(n, Sz));
      } else {
        MergeNone(a, p, n);
      }
    }

    /** `wdfree`. */
    method Free(p: nat)
      requires Valid() || Oversize() || Unset()
      requires (Valid() && Live(lay, p)) || !InHeap(heapStart, heapSize, p) || !InHeap(heapStart, heapSize, p - HDR)
      modifies ram, this`hdrs, this`lay, this`freelistHead
      ensures lay == HeapLayout.Free(old(lay), p) && (old(Valid()) ==> Valid())
      ensures (old(Oversize()) ==> Oversize()) && (old(Unset()) ==> Unset())
      ensures KeepsPayloads(old(ram[..]), ram[..], old(lay).blocks, {})
    {
      hide Fuse, Mark, Upd, Holds, Frames, HeapLayout.Coalesce, Chain;
      if !Unset() { ReadyToSearch(); }
      if freelistHead == 0 || heapStart == 0 || heapSize == 0 || !InHeap(heapStart, heapSize, p) {
        return;
      }
      var hdr := p - HDR;
      if !InHeap(heapStart, heapSize, hdr) {
        return;
      }
      ghost var L, h0, m0, K := lay, hdrs, ram[..], hdrs.Keys;
      CarveReady(L, hdrs, hdr);
      FreeSound(L, p);
      SetFree(hdr, ActualSize(Load(hdr, Sz)), 0);
      ghost var m1 := ram[..];
      FreedReady(L, h0, hdrs, freelistHead, hdr);
      lay := Layout(Mark(L.blocks, hdr, true), L.fl);
      Coalesce(hdr);
      FramesTrans(m0, m1, ram[..], K, K);
      KeepsFromFrames(m0, ram[..], L.blocks);
    }

    lemma LinkBound(a: nat)
      requires Backed() && a in hdrs
      ensures hdrs[a].lom < U64
    {
      assert HeldAt(ram[..], hdrs, a);
      FieldBound(ram[..], a, Lom);
    }

    // ----- wdrealloc

    /**
      The state of the loop that takes `x` and `y` off the freelist `fl` in one pass: it has reached position `i` of
      `fl`, having kept `k` entries, and `curr` and `prev` are the entries there and before.
     */
    ghost predicate Sweeping(fl: seq<nat>, h0: map<nat, Hdr>, m0: seq<byte>, B: Blocks, x: nat, y: nat, i: nat, k: nat,
                             curr: nat, prev: nat)
      reads this, ram
    {
      && Backed() && hdrs.Keys == h0.Keys && Frames(m0, ram[..], h0.Keys) && LinksOnly(h0, hdrs, fl)
      && lay.blocks == B && Chain(hdrs, freelistHead, lay.fl) && Swept(fl, i, k, lay.fl, x, y)
      && k <= |lay.fl| && curr == Link(lay.fl, k) && prev == Before(lay.fl, k)
    }

    /** The loop itself. */
    method Drop(x: nat, y: nat)
      requires Backed() && Chain(hdrs, freelistHead, lay.fl) && Distinct(lay.fl) && 0 !in lay.fl
      modifies ram, this`hdrs, this`freelistHead, this`lay
      ensures Backed() && Frames(old(ram[..]), ram[..], old(hdrs).Keys)
      ensures lay == old(lay).(fl := Without(old(lay).fl, x, y)) && Chain(hdrs, freelistHead, lay.fl)
      ensures LinksOnly(old(hdrs), hdrs, old(lay).fl)
    {
      hide Swept, Frames, Without, Chain, Link;
      ghost var fl, h0, m0, B := lay.fl, hdrs, ram[..], lay.blocks;
      var curr := freelistHead;
      var prev := 0;
      ghost var i, k := 0, 0;
      SweptStart(fl, x, y);
      FramesRefl(m0, h0.Keys);
      assert curr == Link(lay.fl, 0) by { ChainHead(hdrs, freelistHead, fl); }
      SweptAt(fl, i, k, lay.fl, x, y);
      while curr != 0
        invariant Sweeping(fl, h0, m0, B, x, y, i, k, curr, prev) && i <= |fl| && (i < |fl| <==> curr != 0)
        decreases |fl| - i
      {
        if curr == x || curr == y {
          curr := DropOne(prev, curr, k, fl, h0, m0, x, y, i);
        } else {
          var next := KeepOne(prev, curr, k, fl, h0, m0, x, y, i);
          prev, curr, k := curr, next, k + 1;
        }
        i := i + 1;
        SweptAt(fl, i, k, lay.fl, x, y);
      }
      SweptAt(fl, i, k, lay.fl, x, y);
      SweptEnd(fl, k, lay.fl, x, y);
    }

    /** Drop one entry and step to the next. */
    method DropOne(prev: nat, curr: nat, ghost k: nat, ghost fl: seq<nat>, ghost h0: map<nat, Hdr>, ghost m0: seq<byte>,
                   ghost x: nat, ghost y: nat, ghost i: nat)
      returns (next: nat)
      requires Sweeping(fl, h0, m0, lay.blocks, x, y, i, k, curr, prev) && curr != 0 && (curr == x || curr == y)
      modifies ram, this`hdrs, this`freelistHead, this`lay
      ensures i < |fl| && Sweeping(fl, h0, m0, old(lay).blocks, x, y, i + 1, k, next, prev)
    {
      hide Swept, Frames, RemoveAt, Holds;
      ghost var m1, cur := ram[..], lay.fl;
      SweptAt(fl, i, k, cur, x, y);
      SweptDrop(fl, i, k, cur, x, y);
      assert LinkAt(hdrs, cur, k);
      if k > 0 { assert cur[k - 1] in cur; }
      Unlink(prev, curr, k);
      FramesTrans(m0, m1, ram[..], h0.Keys, h0.Keys);
      next := Load(curr, Lom);
      SweptAt(fl, i + 1, k, lay.fl, x, y);
      RemovedLink(cur, k);
    }

    /** Keep one entry and step to the next. */
    method KeepOne(ghost prev: nat, curr: nat, ghost k: nat, ghost fl: seq<nat>, ghost h0: map<nat, Hdr>,
                   ghost m0: seq<byte>, ghost x: nat, ghost y: nat, ghost i: nat)
      returns (next: nat)
      requires Sweeping(fl, h0, m0, lay.blocks, x, y, i, k, curr, prev) && curr != 0 && curr != x && curr != y
      ensures i < |fl| && Sweeping(fl, h0, m0, lay.blocks, x, y, i + 1, k + 1, next, curr)
    {
      hide Swept, Frames, Holds;
      SweptAt(fl, i, k, lay.fl, x, y);
      SweptKeep(fl, i, k, lay.fl, x, y);
      assert LinkAt(hdrs, lay.fl, k);
      next := Load(curr, Lom);
    }

    /** Move payload bytes; `memmove` is only asked for what its forward copy can do. */
    method Move(to: nat, from: nat, n: nat)
      requires Backed() && to + n <= ram.Length && from + n <= ram.Length && !Overlaps(to, from, n)
      requires forall x :: x in hdrs ==> x + HDR <= to || to + n <= x
      modifies ram
      ensures Backed() && ram[..] == Copied(old(ram[..]), to, from, n)
    {
      HoldsCopied(ram[..], hdrs, to, from, n);
      ForwardCopyCorrect(ram[..], to, from, n);
      MemMove(ram, to, from, n);
    }

    /** Mark header `g` used with size `s`. */
    method Stamp(g: nat, s: nat)
      requires Backed() && g in hdrs && s < ALLOC_BIT
      modifies ram, this`hdrs
      ensures Backed() && Frames(old(ram[..]), ram[..], old(hdrs).Keys)
      ensures hdrs == Upd(Upd(old(hdrs), g, Sz, s + ALLOC_BIT), g, Lom, MAGIC)
    {
      Write(g, Sz, s + ALLOC_BIT);
      ghost var m1 := ram[..];
      Write(g, Lom, MAGIC);
      FramesTrans(old(ram[..]), m1, ram[..], old(hdrs).Keys, old(hdrs).Keys);
    }

    /** What both ways of placing the grown block rely on. */
    ghost predicate MayPlace(g: nat, hdr: nat, s: nat, n: nat, avail: nat, gone: set<nat>)
      reads this, ram
    {
      var e := g + HDR + avail;
      && Backed() && g in hdrs && g !in gone && hdr in hdrs && (hdr == g || (hdr in gone && g + HDR <= hdr))
      && hdrs[hdr].sz == s + ALLOC_BIT && s < n <= avail < ALLOC_BIT && hdr + HDR + s <= e <= ram.Length
      && (forall x :: x in hdrs && x !in gone && x != g ==> x + HDR <= g || e <= x)
      && (InHeap(heapStart, heapSize, e) ==> e in hdrs && e !in gone)
      && ClearRange(hdrs.Keys, hdr + HDR, hdr + HDR + s)
    }

    /** Put a free header at `b` at the front of the freelist and tell the block after it. */
    method PushHeader(b: nat, prev: nat, r: nat)
      requires Backed() && b + HDR <= ram.Length && prev < U16 && r < U16 && freelistHead < U64
      requires forall a :: a in hdrs ==> a + HDR <= b || b + HDR <= a
      requires InHeap(heapStart, heapSize, b + HDR + r) ==> b + HDR + r in hdrs
      modifies ram, this`hdrs, this`freelistHead
      ensures Backed() && freelistHead == b && Frames(old(ram[..]), ram[..], old(hdrs).Keys + {b})
      ensures hdrs == Told(old(hdrs)[b := Hdr(prev, r, old(freelistHead))], b + HDR + r, r,
        InHeap(heapStart, heapSize, b + HDR + r))
    {
      ghost var K := hdrs.Keys + {b};
      NewHeader(b, prev, r, freelistHead);
      ghost var m1 := ram[..];
      freelistHead := b;
      TellNext(b + HDR + r, r);
      FramesTrans(old(ram[..]), m1, ram[..], K, K);
    }

    /**
      Stop treating `gone` as headers and move the payload of `hdr` to that of `g`; its size is read from its header.
     */
    method Slide(g: nat, hdr: nat, ghost gone: set<nat>, ghost hi: nat) returns (len: nat)
      requires Backed() && hdr in hdrs && g <= hdr && !(g < hdr < g + HDR) && g !in gone
      requires var len := ActualSize(hdrs[hdr].sz); g + HDR + len <= hi && hdr + HDR + len <= hi <= ram.Length
      requires forall x :: x in hdrs && x !in gone ==> x <= g || hi <= x
      modifies ram, this`hdrs
      ensures Backed() && hdrs == old(hdrs) - gone && len == ActualSize(old(hdrs)[hdr].sz)
      ensures ram[..] == Copied(old(ram[..]), g + HDR, hdr + HDR, len)
    {
      len := ActualSize(Load(hdr, Sz));
      Forget(gone);
      Move(g + HDR, hdr + HDR, len);
    }

    method StampSlide(g: nat, hdr: nat, n: nat, avail: nat, ghost s: nat, ghost gone: set<nat>)
      returns (ghost m1: seq<byte>, len: nat)
      requires MayPlace(g, hdr, s, n, avail, gone)
      modifies ram, this`hdrs
      ensures Backed() && hdrs == Upd(Upd(old(hdrs), g, Sz, n + ALLOC_BIT), g, Lom, MAGIC) - gone
      ensures Frames(old(ram[..]), m1, old(hdrs).Keys) && s <= len <= avail && hdr + HDR + len <= |m1|
      ensures g + HDR + len <= |m1| && ram[..] == Copied(m1, g + HDR, hdr + HDR, len)
    {
      Stamp(g, n);
      m1 := ram[..];
      len := Slide(g, hdr, gone, g + HDR + avail);
    }

    /** The splitting end of an in-place `wdrealloc`. */
    method PlaceSplit(g: nat, hdr: nat, n: nat, avail: nat, ghost s: nat, ghost gone: set<nat>)
      requires MayPlace(g, hdr, s, n, avail, gone) && n + SLACK <= avail && freelistHead < U64
      modifies ram, this`hdrs, this`freelistHead
      ensures Backed() && freelistHead == g + HDR + n
      ensures hdrs == PlacedSplit(old(hdrs), g, n, avail - n - HDR, gone, g + HDR + n, g + HDR + avail,
                                  old(freelistHead), InHeap(heapStart, heapSize, g + HDR + avail))
      ensures Carried(old(ram[..]), ram[..], g + HDR, hdr + HDR, s)
      ensures MovedWithin(old(ram[..]), ram[..], old(hdrs).Keys, g, g + HDR + avail)
    {
      hide Copied, Holds, Frames;
      ghost var m0, K, e := ram[..], hdrs.Keys, g + HDR + avail;
      ghost var m1, len := StampSlide(g, hdr, n, avail, s, gone);
      ghost var m2 := ram[..];
      PushHeader(g + HDR + n, n, avail - n - HDR);
      ghost var K' := K - gone + {g + HDR + n};
      PlacedClear(K', g, s, e, g + HDR + n);
      MoveBetween(m0, m1, m2, ram[..], K, K', g + HDR, hdr + HDR, len, s, g, e);
    }

    method StampTell(g: nat, s: nat, e: nat)
      requires Backed() && g in hdrs && s < ALLOC_BIT && (InHeap(heapStart, heapSize, e) ==> e in hdrs)
      modifies ram, this`hdrs
      ensures Backed() && Frames(old(ram[..]), ram[..], old(hdrs).Keys)
      ensures hdrs == Told(Upd(Upd(old(hdrs), g, Sz, s + ALLOC_BIT), g, Lom, MAGIC), e, s,
        InHeap(heapStart, heapSize, e))
    {
      Stamp(g, s);
      ghost var m1 := ram[..];
      TellNext(e, s);
      FramesTrans(old(ram[..]), m1, ram[..], old(hdrs).Keys, old(hdrs).Keys);
    }

    /** The end of an in-place `wdrealloc` that uses all the bytes. */
    method PlaceWhole(g: nat, hdr: nat, n: nat, avail: nat, ghost s: nat, ghost gone: set<nat>)
      requires MayPlace(g, hdr, s, n, avail, gone)
      modifies ram, this`hdrs
      ensures Backed()
      ensures hdrs == PlacedWhole(old(hdrs), g, avail, gone, g + HDR + avail,
        InHeap(heapStart, heapSize, g + HDR + avail))
      ensures Carried(old(ram[..]), ram[..], g + HDR, hdr + HDR, s)
      ensures MovedWithin(old(ram[..]), ram[..], old(hdrs).Keys, g, g + HDR + avail)
    {
      hide Copied, Holds, Frames;
      ghost var m0, K, e := ram[..], hdrs.Keys, g + HDR + avail;
      StampTell(g, avail, g + HDR + avail);
      ghost var m1 := ram[..];
      var len := Slide(g, hdr, gone, e);
      MoveBetween(m0, m1, ram[..], ram[..], K, {}, g + HDR, hdr + HDR, len, s, g, e);
    }

    /** An in-place `wdrealloc` of block `hdr` once its neighbours have been chosen. */
    method GrowHere(hdr: nat, n: nat, start: nat, avail: nat, rem0: nat, rem1: nat)
      requires Valid() && IsUsed(lay.blocks, hdr) && lay.blocks.tags[hdr].size < n
      requires Choose(lay.blocks, hdr, n) == Here(start, avail, rem0, rem1)
      modifies ram, this`hdrs, this`lay, this`freelistHead
      ensures Valid() && lay == Settle(Gather(old(lay), Here(start, avail, rem0, rem1)), start, n)
      ensures KeepsPayloads(old(ram[..]), ram[..], old(lay).blocks, {hdr})
      ensures Carried(old(ram[..]), ram[..], start + HDR, hdr + HDR, old(lay).blocks.tags[hdr].size)
    {
      hide Choose, Settle, Gather, Without;
      ghost var L, h0, m0, c := lay, hdrs, ram[..], Here(start, avail, rem0, rem1);
      ReadyToSearch();
      Drop(rem0, rem1);
      DroppedPlacing(L, h0, hdrs, freelistHead, hdr, n, c);
      ghost var m1 := ram[..];
      if avail - n >= SLACK {
        GrowSplit(L, hdr, n, start, avail, c);
      } else {
        GrowWhole(L, hdr, n, start, avail, c);
      }
      PlacedKeeps(L, m0, m1, ram[..], hdr, n, c);
    }

    /** What `GrowHere` has established after the freelist pass. */
    ghost predicate MayGrow(L: Layout, hdr: nat, n: nat, c: Choice)
      reads this, ram
    {
      && Backed() && Placing(L, hdrs, freelistHead, hdr, n, c) && L.blocks.tags[hdr].size < n
      && heapStart == L.blocks.start && heapStart + heapSize == L.blocks.end <= ram.Length
    }

    lemma MayGrowMayPlace(L: Layout, hdr: nat, n: nat, c: Choice)
      requires MayGrow(L, hdr, n, c)
      ensures MayPlace(c.start, hdr, L.blocks.tags[hdr].size, n, c.avail, Gone(hdr, c)) && freelistHead < U64
      ensures (c.start + HDR + c.avail in hdrs <==> InHeap(heapStart, heapSize, c.start + HDR + c.avail)) &&
        hdrs.Keys == L.blocks.tags.Keys
      ensures Sound(Settle(Gather(L, c), c.start, n)) && Gather(L, c).blocks.tags[c.start].size == c.avail
      ensures Settle(Gather(L, c), c.start, n).blocks.start == L.blocks.start &&
        Settle(Gather(L, c), c.start, n).blocks.end == L.blocks.end
    {
      PlacingRoom(L, hdrs, freelistHead, hdr, n, c, c.start + HDR + c.avail);
      PlacingClear(L, hdrs, freelistHead, hdr, n, c);
      GatherSound(L, hdr, n, c);
      SettleSound(Gather(L, c), c.start, n);
    }

    method GrowSplit(ghost L: Layout, hdr: nat, n: nat, start: nat, avail: nat, ghost c: Choice)
      requires MayGrow(L, hdr, n, c) && start == c.start && avail == c.avail && avail - n >= SLACK
      modifies ram, this`hdrs, this`lay, this`freelistHead
      ensures Valid() && lay == Settle(Gather(L, c), start, n)
      ensures MovedWithin(old(ram[..]), ram[..], L.blocks.tags.Keys, start, start + HDR + avail)
      ensures Carried(old(ram[..]), ram[..], start + HDR, hdr + HDR, L.blocks.tags[hdr].size)
    {
      hide Fuse, Split, Choose, Gone, PlacedSplit;
      ghost var h1, head1 := hdrs, freelistHead;
      MayGrowMayPlace(L, hdr, n, c);
      PlaceSplit(start, hdr, n, avail, L.blocks.tags[hdr].size, Gone(hdr, c));
      PlacedSplitShown(L, h1, head1, hdr, n, c, avail - n - HDR, start + HDR + n, start + HDR + avail, hdrs,
        Gather(L, c).blocks);
      lay := Settle(Gather(L, c), start, n);
    }

    method GrowWhole(ghost L: Layout, hdr: nat, n: nat, start: nat, avail: nat, ghost c: Choice)
      requires MayGrow(L, hdr, n, c) && start == c.start && avail == c.avail && avail - n < SLACK
      modifies ram, this`hdrs, this`lay
      ensures Valid() && lay == Settle(Gather(L, c), start, n)
      ensures MovedWithin(old(ram[..]), ram[..], L.blocks.tags.Keys, start, start + HDR + avail)
      ensures Carried(old(ram[..]), ram[..], start + HDR, hdr + HDR, L.blocks.tags[hdr].size)
    {
      hide Fuse, Mark, Choose, Gone, PlacedWhole;
      ghost var h1, head1 := hdrs, freelistHead;
      MayGrowMayPlace(L, hdr, n, c);
      PlaceWhole(start, hdr, n, avail, L.blocks.tags[hdr].size, Gone(hdr, c));
      PlacedWholeShown(L, h1, head1, hdr, n, c, start + HDR + avail, hdrs);
      lay := Settle(Gather(L, c), start, n);
    }

    /** Cut `n` bytes off the front of the used block `hdr`; the rest becomes a free block for `coalesce`. */
    method Cut(hdr: nat, n: nat) returns (b: nat)
      requires Valid() && IsUsed(lay.blocks, hdr) && n + HDR <= lay.blocks.tags[hdr].size
      modifies ram, this`hdrs, this`lay
      ensures Shown() && b == hdr + HDR + n && lay == Layout(RawSplit(old(lay).blocks, hdr, n), old(lay).fl) &&
        Loose(lay, b)
      ensures Frames(old(ram[..]), ram[..], old(lay).blocks.tags.Keys + {b}) &&
        hdrs.Keys == old(lay).blocks.tags.Keys + {b}
    {
      hide RawSplit, Holds, Frames, Tiled, BackTag, Upd, Chain;
      ghost var L, h0, m0, K := lay, hdrs, ram[..], hdrs.Keys;
      CarveReady(L, hdrs, hdr);
      b := hdr + HDR + n;
      RoomForHeader(L.blocks, hdr, b);
      var avail := ActualSize(Load(hdr, Sz));
      Write(hdr, Sz, n + ALLOC_BIT);
      ghost var m1 := ram[..];
      NewHeader(b, n, avail - HDR - n, 0);
      FramesTrans(m0, m1, ram[..], K, K + {b});
      RawSplitReady(L, h0, hdrs, freelistHead, hdr, n, b);
      lay := Layout(RawSplit(L.blocks, hdr, n), L.fl);
    }

    /** The splitting branch of a shrinking `wdrealloc`. */
    method ShrinkSplit(hdr: nat, n: nat)
      requires Valid() && IsUsed(lay.blocks, hdr) && n + SLACK <= lay.blocks.tags[hdr].size
      modifies ram, this`hdrs, this`lay, this`freelistHead
      ensures Valid() && lay == Shrink(old(lay), hdr, n)
      ensures Frames(old(ram[..]), ram[..], old(lay).blocks.tags.Keys + {hdr + HDR + n})
    {
      hide RawSplit, Fuse, Split, WithPrev, Told, Frames, Holds, Shows, Loose, Remove, Replace, TileAt;
      hide HeapLayout.Coalesce;
      ghost var L, m0 := lay, ram[..];
      ghost var K := L.blocks.tags.Keys + {hdr + HDR + n};
      var b := Cut(hdr, n);
      ghost var m1 := ram[..];
      Coalesce(b);
      ghost var C, m2, h2 := lay, ram[..], hdrs;
      ShrinkFix(L, C, hdr, n, b);
      ShownThere(hdrs, C.blocks, b);
      var sz := Load(b, Sz);
      TellNext(b + HDR + sz, sz);
      FramesTrans(m0, m1, m2, K, K);
      FramesWiden(m2, ram[..], h2.Keys, K);
      FramesTrans(m0, m2, ram[..], K, K);
      ToldShows(h2, C.blocks, b + HDR + sz, sz, hdrs);
      ChainFrame(h2, hdrs, freelistHead, C.fl);
      ShrinkSound(L, hdr, n);
      lay := Shrink(L, hdr, n);
    }

    /** The four-way choice of a growing `wdrealloc`. */
    method ChooseRoom(hdr: nat, n: nat) returns (here: bool, start: nat, avail: nat, rem0: nat, rem1: nat)
      requires Valid() && IsUsed(lay.blocks, hdr)
      ensures Choose(lay.blocks, hdr, n) == if here then Here(start, avail, rem0, rem1) else Elsewhere
    {
      ghost var B := lay.blocks;
      NeighboursUsed(lay, hdrs, hdr);
      var s := ActualSize(Load(hdr, Sz));
      var p := hdr - Load(hdr, PrevSz) - HDR;
      var b := hdr + HDR + s;
      var nextFree := InHeap(heapStart, heapSize, b) && Load(b, Sz) < ALLOC_BIT;
      var prevFree := InHeap(heapStart, heapSize, p) && Load(p, Sz) < ALLOC_BIT;
      assert nextFree == NextFree(B, hdr) && prevFree == PrevFree(B, hdr);
      here, start, avail, rem0, rem1 := true, 0, 0, 0, 0;
      if nextFree && Load(b, Sz) + HDR + s >= n {
        start, avail, rem0 := hdr, Load(b, Sz) + HDR + s, b;
      } else if prevFree && Load(p, Sz) + HDR + s >= n {
        start, avail, rem0 := p, Load(p, Sz) + HDR + s, p;
      } else if nextFree && prevFree && Load(p, Sz) + HDR + s + HDR + Load(b, Sz) >= n {
        start, avail, rem0, rem1 := p, Load(p, Sz) + HDR + s + HDR + Load(b, Sz), p, b;
      } else {
        here := false;
      }
    }

    /** Copy the payload of the live pointer `p` to that of `r` and free `p`. */
    method Relocate(p: nat, r: nat, ghost s: nat) returns (ghost m: seq<byte>)
      requires Valid() && Live(lay, p) && Live(lay, r) && p != r
      requires s == lay.blocks.tags[p - HDR].size <= lay.blocks.tags[r - HDR].size
      modifies ram, this`hdrs, this`lay, this`freelistHead
      ensures Valid() && lay == HeapLayout.Free(old(lay), p) && r + s <= ram.Length && p + s <= ram.Length
      ensures m == Copied(old(ram[..]), r, p, s) && KeepsPayloads(m, ram[..], old(lay).blocks, {})
    {
      hide Copied, KeepsPayloads, Holds, Shows, Tiled, Listed, HeapLayout.Free;
      CarveReady(lay, hdrs, p - HDR);
      CarveReady(lay, hdrs, r - HDR);
      MoveReady(lay, r - HDR, p - HDR, s);
      var len := ActualSize(Load(p - HDR, Sz));
      Move(r, p, len);
      m := ram[..];
      Free(p);
    }

    /** Move a block's contents to a new block and free the old one. */
    method GrowElsewhere(p: nat, n: nat) returns (r: nat)
      requires Valid() && Live(lay, p) && lay.blocks.tags[p - HDR].size < n < U16 &&
        Choose(lay.blocks, p - HDR, n).Elsewhere?
      modifies ram, this
      ensures Valid() && (lay, r) == Grow(old(lay), p - HDR, n)
      ensures heapStart == old(heapStart) && heapSize == old(heapSize)
      ensures r == 0 ==> ram[..] == old(ram[..])
      ensures r != 0 ==> Carried(old(ram[..]), ram[..], r, p, old(lay).blocks.tags[p - HDR].size)
      ensures KeepsPayloads(old(ram[..]), ram[..], old(lay).blocks, {p - HDR})
    {
      hide Copied, KeepsPayloads, Carried, Holds, Shows, Sound, Choose, HeapLayout.Malloc, HeapLayout.Free;
      ghost var L, m0, a := lay, ram[..], p - HDR;
      MallocSound(L, n);
      r := Malloc(n);
      KeepsMore(m0, ram[..], L.blocks, {a});
      if r == 0 {
        return;
      }
      ghost var m1 := ram[..];
      MallocUsed(L, n, a);
      MallocUsed(L, n, r - HDR);
      ghost var m2 := Relocate(p, r, L.blocks.tags[a].size);
      MovedElsewhere(L, n, r, m0, m1, m2, ram[..], a);
    }

    /** The branches of `wdrealloc` that make a block larger. */
    method ReallocGrow(p: nat, n: nat) returns (r: nat)
      requires Valid() && Live(lay, p) && lay.blocks.tags[p - HDR].size < n < U16
      modifies ram, this
      ensures Valid() && (lay, r) == Grow(old(lay), p - HDR, n)
      ensures heapStart == old(heapStart) && heapSize == old(heapSize)
      ensures if r == 0 then ram[..] == old(ram[..])
        else Carried(old(ram[..]), ram[..], r, p, old(lay).blocks.tags[p - HDR].size)
      ensures KeepsPayloads(old(ram[..]), ram[..], old(lay).blocks, {p - HDR})
    {
      hide HeapLayout.Malloc, HeapLayout.Free, Settle, Gather, Choose, Holds, Carried, KeepsPayloads, Tiled, Listed,
        BackTag;
      var here, start, avail, rem0, rem1 := ChooseRoom(p - HDR, n);
      if here {
        GrowHere(p - HDR, n, start, avail, rem0, rem1);
        r := start + HDR;
      } else {
        r := GrowElsewhere(p, n);
      }
    }

    /** The branches of `wdrealloc` that make a block smaller. */
    method ReallocShrink(p: nat, n: nat) returns (r: nat)
      requires Valid() && Live(lay, p) && n < lay.blocks.tags[p - HDR].size
      modifies ram, this
      ensures Valid() && lay == (if n == 0 then HeapLayout.Free(old(lay), p) else Shrink(old(lay), p - HDR, n))
      ensures r == if n == 0 then 0 else p
      ensures heapStart == old(heapStart) && heapSize == old(heapSize)
      ensures Carried(old(ram[..]), ram[..], p, p, n)
      ensures KeepsPayloads(old(ram[..]), ram[..], old(lay).blocks, {p - HDR})
    {
      ghost var L, m0 := lay, ram[..];
      var hdr := p - HDR;
      CarveReady(L, hdrs, hdr);
      CarriedRefl(L, m0, hdr, n);
      KeepsRefl(m0, L.blocks, {hdr});
      if n == 0 {
        Free(p);
        KeepsMore(m0, ram[..], L.blocks, {hdr});
        return 0;
      }
      var avail := ActualSize(Load(hdr, Sz));
      if avail - n >= SLACK {
        ShrinkSplit(hdr, n);
        ShrunkKeeps(L, m0, ram[..], hdr, n);
      }
      return p;
    }

    /** `wdrealloc`. */
    method Realloc(p: nat, n: nat) returns (r: nat)
      requires n < U16
      requires Unset() || (p == 0 && (Valid() || Oversize())) || (Valid() && Live(lay, p))
      modifies ram, this
      ensures (lay, r) == HeapLayout.Realloc(old(lay), p, n) && (old(Valid()) ==> Valid())
      ensures (old(Oversize()) ==> r == 0 && Oversize()) && (old(Unset()) ==> r == 0 && Unset())
      ensures heapStart == old(heapStart) && heapSize == old(heapSize)
      ensures KeepsPayloads(old(ram[..]), ram[..], old(lay).blocks, if Live(old(lay), p) then {p - HDR} else {})
      ensures Live(old(lay), p) && r != 0 ==>
        Carried(old(ram[..]), ram[..], r, p,
                if n < old(lay).blocks.tags[p - HDR].size then n else old(lay).blocks.tags[p - HDR].size)
      ensures r == 0 && (n > 0 || old(lay).fl == []) ==> lay == old(lay) && ram[..] == old(ram[..])
    {
      hide HeapLayout.Malloc, HeapLayout.Free, Shrink, Grow, Holds, Carried, KeepsPayloads, Tiled, Listed, BackTag;
      if !Unset() { ReadyToSearch(); }
      KeepsRefl(ram[..], lay.blocks, if Live(lay, p) then {p - HDR} else {});
      if freelistHead == 0 || heapStart == 0 || heapSize == 0 {
        return 0;
      }
      if p == 0 {
        if Valid() { MallocSound(lay, n); }
        r := Malloc(n);
        return;
      }
      CarveReady(lay, hdrs, p - HDR);
      var s := ActualSize(Load(p - HDR, Sz));
      if n == s {
        CarriedRefl(lay, ram[..], p - HDR, n);
        return p;
      } else if n > s {
        GrowNull(lay, p - HDR, n);
        r := ReallocGrow(p, n);
      } else {
        r := ReallocShrink(p, n);
      }
    }
  }
}
