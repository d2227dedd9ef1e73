/** The kernel's page-table builder over its bitmap page allocator. */
module Paging {
  import opened Bitmaps
  import opened PagePool
  import opened Addresses
  import opened PageTree
  import opened Pools

  // ----- The page allocator and the tables

  /** Every table sits on a page of the pool that is marked taken. */
  ghost predicate Allotted(nodes: map<Node, nat>, first: int, b: seq<bool>) {
    forall nd {:trigger nodes[nd]} :: nd in nodes ==> first <= nodes[nd] < first + |b| && b[nodes[nd] - first]
  }

  /** A page the allocator just handed out is no table yet; as a new table it keeps the rule. */
  lemma AllottedGrows(nodes: map<Node, nat>, first: int, b: seq<bool>, b': seq<bool>, k: int, c: Node)
    requires Allotted(nodes, first, b) && Took(b, 1, k, b') && k != -1 && 0 <= first + k
    ensures forall x :: x in nodes ==> nodes[x] != first + k
    ensures Allotted(nodes[c := first + k], first, b')
  {
    assert !b[k];
  }

  lemma LeafPage(m: Memory, nodes: map<Node, nat>, v: nat, first: int, b: seq<bool>)
    requires Tree(m, nodes) && Leaf(v) in nodes && Allotted(nodes, first, b) && 0 <= first && first + |b| <= 0x8_0000
    ensures nodes[Leaf(v)] < |m| && |m[nodes[Leaf(v)]]| == 512 && Root() in nodes
    ensures Vtop(PHYS_BASE + 4096 * nodes[Leaf(v)]) / 4096 == nodes[Leaf(v)]
  {
    assert NodeOk(m, nodes, Leaf(v));
    PtovVtop(nodes[Leaf(v)]);
  }

  /** The tables below the root on the way to page `v`. */
  ghost function Path(v: nat): set<Node> {
    {Node(3, v / 0x800_0000), Node(2, v / 0x4_0000), Leaf(v)}
  }

  /** How many of them do not exist yet. */
  ghost function Missing(nodes: map<Node, nat>, v: nat): nat {
    (if Node(3, v / 0x800_0000) in nodes then 0 else 1)
    + (if Node(2, v / 0x4_0000) in nodes then 0 else 1)
    + (if Leaf(v) in nodes then 0 else 1)
  }

  // ----- Mapping all of memory

  const HIGHER: nat := 0xF_FFF8_0000 // the virtual page number of PHYS_BASE

  /** The virtual page of physical page `p`: from 2 GiB on, `k_ptov` wraps around to the bottom of the address space. */
  function VirtualPage(p: nat): nat { if p < 0x8_0000 then HIGHER + p else p - 0x8_0000 }

  function PhysicalPage(v: nat): nat { if v >= HIGHER then v - HIGHER else v + 0x8_0000 }

  lemma VpnOfPage(p: nat)
    requires p < VPNS
    ensures Vpn(Ptov(4096 * p)) == VirtualPage(p) < VPNS && PhysicalPage(VirtualPage(p)) == p
  {
    hide Vpn, Ptov;
    if p < 0x8_0000 {
      PtovVtop(p);
      VpnAt(PHYS_BASE + 4096 * p, 0xF_FFFF_FFF8_0000 + p, 0xFFFF, HIGHER + p);
    } else {
      PtovWraps(p);
      VpnAt(4096 * (p - 0x8_0000), p - 0x8_0000, 0, p - 0x8_0000);
    }
  }

  lemma PtovWraps(p: nat)
    requires 0x8_0000 <= p < 0x10_0000_0000
    ensures Ptov(4096 * p) == 4096 * (p - 0x8_0000)
  {
    var y := 4096 * (p - 0x8_0000);
    assert 4096 * p + PHYS_BASE == SPACE + y && 0 <= y < SPACE;
  }

  lemma VpnAt(x: nat, y: nat, q: nat, v: nat)
    requires x == 4096 * y && y == 0x10_0000_0000 * q + v && v < 0x10_0000_0000
    ensures Vpn(x) == v
  {
    assert x / 4096 == y;
  }

  /** The third-level tables that map the first `n` physical pages: one for the top 2 GiB, then one per 512 GiB. */
  function Thirds(n: nat): nat {
    if n == 0 then 0
    else if n <= 0x8_0000 then 1
    else if n > 0x8_0000 + 511 * 0x800_0000 then 512
    else 1 + (n - 0x8_0000 + 0x7FF_FFFF) / 0x800_0000
  }

  /** All table pages that map the first `n` physical pages. */
  function Tables(n: nat): nat {
    1 + Thirds(n) + (n + 0x3_FFFF) / 0x4_0000 + (n + 511) / 512
  }

  /** For what the top 2 GiB can hold. */
  lemma TablesBelow2GiB(n: nat)
    requires 1 <= n <= 0x8_0000
    ensures Tables(n) == 2 + (n + 511) / 512 + (n + 262143) / 262144
  {
  }

  /** The physical page mapped first below a table, given how many pages lie below each table of its level. */
  ghost function FirstPage(prefix: nat, reach: nat, top: nat): int {
    if prefix >= top then (prefix - top) * reach else 0x8_0000 + prefix * reach
  }

  /** Table `nd` is on the way to one of the first `n` physical pages. */
  ghost predicate InSpan(nd: Node, n: nat) {
    || (nd.level == 3 && nd.prefix < 512 && FirstPage(nd.prefix, 0x800_0000, 511) < n)
    || (nd.level == 2 && nd.prefix < 0x4_0000 && FirstPage(nd.prefix, 0x4_0000, 0x3_FFFE) < n)
    || (nd.level == 1 && nd.prefix < 0x800_0000 && FirstPage(nd.prefix, 512, 0x7FF_FC00) < n)
  }

  ghost predicate SpanKeys(K: set<Node>, n: nat) {
    forall nd {:trigger nd in K} :: nd in K <==> nd == Root() || InSpan(nd, n)
  }

  ghost predicate Spans(nodes: map<Node, nat>, n: nat) {
    SpanKeys(nodes.Keys, n)
  }

  lemma SpansOf(nodes: map<Node, nat>, n: nat)
    requires SpanKeys(nodes.Keys, n)
    ensures Spans(nodes, n)
  {
  }

  /** The tables on the way to physical page `n`, and the physical pages mapped first below them. */
  lemma LeafFirst(n: nat, q: nat)
    requires n < 0x10_0000_0000
    ensures VirtualPage(n) / 512 < 0x800_0000 && FirstPage(VirtualPage(n) / 512, 512, 0x7FF_FC00) == n - n % 512
    ensures q < 0x800_0000 && FirstPage(q, 512, 0x7FF_FC00) == n ==> q == VirtualPage(n) / 512
  {
    var v := VirtualPage(n);
    if n < 0x8_0000 {
      assert v == 512 * 0x7FF_FC00 + n && v / 512 == 0x7FF_FC00 + n / 512;
    } else {
      assert n == 512 * 0x400 + v && n % 512 == v % 512;
    }
  }

  lemma SecondFirst(n: nat, q: nat)
    requires n < 0x10_0000_0000
    ensures VirtualPage(n) / 0x4_0000 < 0x4_0000
    ensures FirstPage(VirtualPage(n) / 0x4_0000, 0x4_0000, 0x3_FFFE) == n - n % 0x4_0000
    ensures q < 0x4_0000 && FirstPage(q, 0x4_0000, 0x3_FFFE) == n ==> q == VirtualPage(n) / 0x4_0000
  {
    var v := VirtualPage(n);
    if n < 0x8_0000 {
      assert v == 0x4_0000 * 0x3_FFFE + n && v / 0x4_0000 == 0x3_FFFE + n / 0x4_0000;
    } else {
      assert n == 0x4_0000 * 2 + v && n % 0x4_0000 == v % 0x4_0000;
    }
  }

  /** Physical page `n` is the first below its third-level table. */
  ghost predicate OpensThird(n: nat) {
    n == 0 || (0x8_0000 <= n < 0x8_0000 + 511 * 0x800_0000 && (n - 0x8_0000) % 0x800_0000 == 0)
  }

  lemma ThirdFirst(n: nat, q: nat)
    requires n < 0x10_0000_0000
    ensures VirtualPage(n) / 0x800_0000 < 512
    ensures FirstPage(VirtualPage(n) / 0x800_0000, 0x800_0000, 511) <= n
    ensures FirstPage(VirtualPage(n) / 0x800_0000, 0x800_0000, 511) == n <==> OpensThird(n)
    ensures q < 512 && FirstPage(q, 0x800_0000, 511) == n ==> q == VirtualPage(n) / 0x800_0000
  {
    var v := VirtualPage(n);
    var t, r := v / 0x800_0000, v % 0x800_0000;
    assert v == 0x800_0000 * t + r;
    if n < 0x8_0000 {
      assert t == 511;
    }
  }

  /** The next page needs a new table of each level exactly at the multiples of that level's reach. */
  lemma SpansNext(nodes: map<Node, nat>, n: nat)
    requires Spans(nodes, n) && n < VPNS
    ensures Missing(nodes, VirtualPage(n)) == Tables(n + 1) - Tables(n)
  {
    hide Tables, FirstPage, VirtualPage, OpensThird;
    TablesStep(n);
    var v := VirtualPage(n);
    ThirdFirst(n, 0);
    SecondFirst(n, 0);
    LeafFirst(n, 0);
    assert Node(3, v / 0x800_0000) in nodes.Keys <==> !OpensThird(n);
    assert Node(2, v / 0x4_0000) in nodes.Keys <==> n % 0x4_0000 != 0;
    assert Leaf(v) in nodes.Keys <==> n % 512 != 0;
  }

  lemma TablesStep(n: nat)
    requires n < VPNS
    ensures Tables(n + 1) - Tables(n) ==
      (if OpensThird(n) then 1 else 0) + (if n % 0x4_0000 == 0 then 1 else 0) + (if n % 512 == 0 then 1 else 0)
  {
    hide Thirds, OpensThird;
    LeavesStep(n);
    SecondsStep(n);
    ThirdsStep(n);
  }

  lemma LeavesStep(n: nat)
    ensures (n + 1 + 511) / 512 == (n + 511) / 512 + if n % 512 == 0 then 1 else 0
  {
  }

  lemma SecondsStep(n: nat)
    ensures (n + 1 + 0x3_FFFF) / 0x4_0000 == (n + 0x3_FFFF) / 0x4_0000 + if n % 0x4_0000 == 0 then 1 else 0
  {
    var q, r := n / 0x4_0000, n % 0x4_0000;
    assert n == 0x4_0000 * q + r;
  }

  lemma ThirdsStep(n: nat)
    ensures Thirds(n + 1) == Thirds(n) + if OpensThird(n) then 1 else 0
  {
    if 0x8_0000 <= n {
      var q, r := (n - 0x8_0000) / 0x800_0000, (n - 0x8_0000) % 0x800_0000;
      assert n - 0x8_0000 == 0x800_0000 * q + r;
      assert (n - 0x8_0000 + 0x7FF_FFFF) / 0x800_0000 == if r == 0 then q else q + 1;
      assert (n + 1 - 0x8_0000 + 0x7FF_FFFF) / 0x800_0000 == q + 1;
    }
  }

  lemma SpansStep(K: set<Node>, K': set<Node>, n: nat)
    requires SpanKeys(K, n) && n < VPNS && K' == K + Path(VirtualPage(n))
    ensures SpanKeys(K', n + 1)
  {
    hide FirstPage, VirtualPage, OpensThird;
    forall nd ensures nd in K' <==> nd == Root() || InSpan(nd, n + 1) {
      assert nd in K <==> nd == Root() || InSpan(nd, n);
      ThirdFirst(n, nd.prefix);
      SecondFirst(n, nd.prefix);
      LeafFirst(n, nd.prefix);
    }
  }

  lemma {:induction false} TablesGrow(k: nat, n: nat)
    requires k <= n <= VPNS
    ensures Tables(k) <= Tables(n)
    decreases n - k
  {
    hide Tables;
    if k < n {
      TablesStep(k);
      TablesGrow(k + 1, n);
    }
  }

  /** A zeroed root alone is a tree without translations. */
  lemma RootTree(m: Memory, pg: nat, nodes: map<Node, nat>)
    requires pg < |m| && m[pg] == Zeros() && nodes == map[Root() := pg]
    ensures Tree(m, nodes)
    ensures forall v :: 0 <= v < VPNS ==> Walk(m, pg, v) == None
  {
    ZeroNotPresent();
    assert NodeOk(m, nodes, Root()) by {
      forall i | 0 <= i < 512 ensures EntryOk(m, nodes, Root(), i) { assert m[pg][i] == 0; }
    }
    forall v | 0 <= v < VPNS ensures Walk(m, pg, v) == None { assert m[pg][v / 0x800_0000 % 512] == 0; }
  }

  /** What `pde_init` finds through the table pointer it is given. */
  lemma TablePage(m: Memory, nodes: map<Node, nat>, nd: Node, i: nat, first: int, b: seq<bool>)
    requires Tree(m, nodes) && nd in nodes && nd.level > 1 && i < 512 && Allotted(nodes, first, b) && 0 <= first &&
      first + |b| <= 0x8_0000
    ensures nodes[nd] < |m| && |m[nodes[nd]]| == 512 && nodes[nd] < 0x8_0000 && Root() in nodes && 0 < |b|
    ensures Vtop(PHYS_BASE + 4096 * nodes[nd]) / 4096 == nodes[nd]
    ensures Present(m[nodes[nd]][i]) <==> Child(nd, i) in nodes
    ensures Child(nd, i) in nodes ==> Base(m[nodes[nd]][i]) == nodes[Child(nd, i)] < 0x8_0000
  {
    assert NodeOk(m, nodes, nd) && EntryOk(m, nodes, nd, i);
    PtovVtop(nodes[nd]);
  }

  /** No table lies on a page that holds a bit of the pool's bitmap, so the two never overwrite each other. */
  ghost predicate OffBitmap(nodes: map<Node, nat>, lo: nat, n: nat) {
    forall nd {:trigger nodes[nd]} :: nd in nodes ==> !Touches(nodes[nd], 1, lo, n)
  }

  lemma EmptyMap(first: int, b: seq<bool>, lo: nat, n: nat)
    ensures Allotted(map[], first, b) && OffBitmap(map[], lo, n)
  {
  }

  lemma OffBitmapGrows(nodes: map<Node, nat>, first: int, b: seq<bool>, k: nat, c: Node, lo: nat, n: nat)
    requires OffBitmap(nodes, lo, n) && Sheltered(b, first, lo, n) && k < |b| && !b[k] && 0 <= first + k
    ensures OffBitmap(nodes[c := first + k], lo, n)
  {
    FreePage(b, first, lo, n, k);
  }

  // ----- Without a page

  /** No set of tables from the pool with this root fits the memory as a tree. */
  ghost predicate NoTree(m: Memory, root: nat, first: int, b: seq<bool>) {
    forall nodes {:trigger Tree(m, nodes)} ::
      Root() in nodes && nodes[Root()] == root && Allotted(nodes, first, b) ==> !Tree(m, nodes)
  }

  /** Entry `i` of table `nd`, below which there was no table, is overwritten with `e`. */
  ghost predicate Overwritten(m: Memory, nodes: map<Node, nat>, nd: Node, i: nat, e: nat, m': Memory) {
    && Tree(m, nodes) && nd in nodes && nd.level > 1 && i < 512 && Child(nd, i) !in nodes
    && nodes[nd] < |m| && |m[nodes[nd]]| == 512 && m' == Put(m, nodes[nd], i, e)
  }

  /** The root determines all tables: any tree with the same root has the old ones where they were. */
  lemma {:induction false} SameTables(m: Memory, nodes: map<Node, nat>, nd: Node, i: nat, e: nat, m': Memory,
                                      nodes': map<Node, nat>, x: Node)
    requires Overwritten(m, nodes, nd, i, e, m') && Tree(m', nodes') && x in nodes
    requires Root() in nodes && nodes'[Root()] == nodes[Root()]
    ensures x in nodes' && nodes'[x] == nodes[x]
    decreases 4 - x.level
  {
    hide Present, Base, Large, Writable, User;
    assert NodeOk(m, nodes, x);
    if x != Root() {
      var p, j := Parent(x), x.prefix % 512;
      assert Child(p, j) == x;
      SameTables(m, nodes, nd, i, e, m', nodes', p);
      assert NodeOk(m, nodes, p) && EntryOk(m, nodes, p, j);
      assert nodes[p] == nodes[nd] ==> p == nd && j != i;
      assert NodeOk(m', nodes', p) && EntryOk(m', nodes', p, j);
    }
  }

  /** Without a page `pde_init` makes an entry for the frame that NULL converts to, 2 GiB, which no pool reaches. */
  lemma NullEntry(m: Memory, nodes: map<Node, nat>, nd: Node, i: nat, m': Memory, first: int, b: seq<bool>)
    requires Overwritten(m, nodes, nd, i, Entry(0x8000_0000), m') && Root() in nodes && first + |b| <= 0x8_0000
    ensures NoTree(m', nodes[Root()], first, b)
  {
    hide Entry, Base, Large, Present, Writable, User;
    var e := Entry(0x8000_0000);
    EntryFields(0x8000_0000, 0x8_0000);
    forall nodes': map<Node, nat> | Root() in nodes' && nodes'[Root()] == nodes[Root()] && Allotted(nodes', first, b)
      ensures !Tree(m', nodes')
    {
      if Tree(m', nodes') {
        SameTables(m, nodes, nd, i, e, m', nodes', nd);
        BeyondPool(m', nodes', nd, i, first, b);
        assert false;
      }
    }
  }

  /** In a tree from the pool no entry above the leaves names a frame from 2 GiB on. */
  lemma BeyondPool(m: Memory, nodes: map<Node, nat>, nd: Node, i: nat, first: int, b: seq<bool>)
    requires Tree(m, nodes) && nd in nodes && nd.level > 1 && i < 512
    requires Allotted(nodes, first, b) && first + |b| <= 0x8_0000
    ensures nodes[nd] < |m| && i < |m[nodes[nd]]| && (Present(m[nodes[nd]][i]) ==> Base(m[nodes[nd]][i]) < 0x8_0000)
  {
    hide Base, Large, Present, Writable, User;
    assert NodeOk(m, nodes, nd) && EntryOk(m, nodes, nd, i);
  }

  /** Entry `i` of the table on page `page` names the frame at 2 GiB, and memory is otherwise as it was. */
  ghost predicate Unlinked(m: Memory, m': Memory, page: nat, i: nat) {
    page < |m| && i < |m[page]| && m' == Put(m, page, i, 0x8000_0003)
  }

  /** Entry `i` of the table on page `page` is `e`. */
  ghost predicate EntryIs(m: Memory, page: nat, i: nat, e: nat) {
    page < |m| && i < |m[page]| && m[page][i] == e
  }

  lemma NullLinked(m: Memory, nodes: map<Node, nat>, nd: Node, i: nat, m': Memory, first: int, b: seq<bool>)
    requires Overwritten(m, nodes, nd, i, Entry(0x8000_0000), m') && Root() in nodes && first + |b| <= 0x8_0000
    ensures NoTree(m', nodes[Root()], first, b) && Unlinked(m, m', nodes[nd], i)
  {
    hide Entry, NoTree, Tree;
    EntryValue(0x8000_0000, 0x8_0000);
    NullEntry(m, nodes, nd, i, m', first, b);
  }

  /** A page fresh from the pool, zeroed and linked below entry `i` of table `nd`. */
  lemma TableLinked(m: Memory, nodes: map<Node, nat>, nd: Node, i: nat, pg: nat, m1: Memory, m2: Memory, first: int,
                    b: seq<bool>, b': seq<bool>, k: nat, lo: nat, n: nat)
    requires Tree(m, nodes) && nd in nodes && nd.level > 1 && i < 512 && Child(nd, i) !in nodes && Root() in nodes
    requires pg == first + k < |m| && pg < 0x8_0000 && k < |b| && !b[k] && Took(b, 1, k, b')
    requires Allotted(nodes, first, b) && OffBitmap(nodes, lo, n) && Sheltered(b, first, lo, n)
    requires m1 == m[pg := Zeros()] && nodes[nd] < |m1| && |m1[nodes[nd]]| == 512
    requires m2 == Put(m1, nodes[nd], i, Entry(4096 * pg))
    ensures Tree(m2, nodes[Child(nd, i) := pg]) && Allotted(nodes[Child(nd, i) := pg], first, b')
    ensures OffBitmap(nodes[Child(nd, i) := pg], lo, n) && EntryIs(m2, nodes[nd], i, 4096 * pg + 3)
    ensures forall u :: 0 <= u < VPNS ==> Walk(m2, nodes[Root()], u) == Walk(m, nodes[Root()], u)
  {
    hide Walk, Entry, Took, Tree, Allotted, OffBitmap, Sheltered, Zeros;
    EntryValue(4096 * pg, pg);
    AllottedGrows(nodes, first, b, b', k, Child(nd, i));
    OffBitmapGrows(nodes, first, b, k, Child(nd, i), lo, n);
    NewTable(m, nodes, nd, i, pg, m1, m2, nodes[Child(nd, i) := pg]);
  }

  class Kernel {
    const pool: Pool
    var pml4: nat
    ghost var nodes: map<Node, nat>

    constructor (kernelPool: Pool)
      ensures pool == kernelPool && nodes == map[]
    {
      pool, pml4, nodes := kernelPool, 0, map[];
    }

    ghost predicate Valid()
      reads this, pool, pool.bmp, pool.bmp.mem, pool.ram
    {
      && pool.Valid() && Root() in nodes && Tree(pool.ram[..], nodes) && Allotted(nodes, pool.First(), pool.bmp.Bits())
      && OffBitmap(nodes, 8 * pool.bmp.buf, pool.bmp.size)
      && pml4 == PHYS_BASE + 4096 * nodes[Root()]
    }

    /** The pages of the pool that are taken. */
    ghost function Taken(): nat
      requires pool.Valid()
      reads this, pool, pool.bmp, pool.bmp.mem, pool.ram
    {
      Count(pool.bmp.Bits())
    }

    /** What the processor makes of virtual page `v`. */
    ghost function Translate(v: nat): Option<Page>
      requires Root() in nodes
      reads this, pool, pool.ram
    {
      Walk(pool.ram[..], nodes[Root()], v)
    }

    /** The branch of `pde_init` for a table that does not exist yet. */
    method AddTable(page: nat, i: nat, ghost nd: Node) returns (v: nat)
      requires Valid() && nd in nodes && nd.level > 1 && i < 512 && page == nodes[nd] && Child(nd, i) !in nodes
      modifies pool.bmp.mem, pool.ram, this`nodes
      ensures pool.Valid() && (v == 0 <==> old(Taken()) == pool.bmp.size)
      ensures v != 0 ==> Valid() && Child(nd, i) in nodes && v == PHYS_BASE + 4096 * nodes[Child(nd, i)]
      ensures v != 0 ==> nodes == old(nodes)[Child(nd, i) := nodes[Child(nd, i)]] && Taken() == old(Taken()) + 1
      ensures v != 0 ==> forall u :: 0 <= u < VPNS ==> Translate(u) == old(Translate(u))
      ensures v != 0 ==> EntryIs(pool.ram[..], page, i, 4096 * nodes[Child(nd, i)] + 3)
      ensures v == 0 ==> nodes == old(nodes) && pool.bmp.Bits() == old(pool.bmp.Bits())
      ensures v == 0 ==> Unlinked(old(pool.ram[..]), pool.ram[..], page, i)
      ensures v == 0 ==> NoTree(pool.ram[..], nodes[Root()], pool.First(), pool.bmp.Bits())
    {
      hide Walk, Entry, Took, Count, Vtop, Tree, Allotted, OffBitmap, Sheltered, NoTree, Zeros, EntryIs, Unlinked;
      ghost var m, b := pool.ram[..], pool.bmp.Bits();
      TablePage(m, nodes, nd, i, pool.First(), b);
      ghost var k;
      v, k := pool.GetPages(1, true);
      TookOneIff(b, k, pool.bmp.Bits());
      ghost var m1 := pool.ram[..];
      pool.ram[page] := pool.ram[page][i := Entry(Vtop(v))];
      if k == -1 {
        NullPage();
        assert m1 == m;
        NullLinked(m, nodes, nd, i, pool.ram[..], pool.First(), b);
      } else {
        ghost var pg := pool.First() + k;
        PtovVtop(pg);
        TableLinked(m, nodes, nd, i, pg, m1, pool.ram[..], pool.First(), b, pool.bmp.Bits(), k, 8 * pool.bmp.buf,
                    pool.bmp.size);
        nodes := nodes[Child(nd, i) := pg];
      }
    }

    /**
      `pde_init` for entry `i` of the table at virtual address `table`, which is table `nd` of the tree.  Without a free
      page for a missing table it links the frame at 2 GiB all the same and returns NULL.
     */
    method PdeInit(table: nat, i: nat, ghost nd: Node) returns (next: nat)
      requires Valid() && nd in nodes && nd.level > 1 && i < 512 && table == PHYS_BASE + 4096 * nodes[nd]
      modifies pool.bmp.mem, pool.ram, this`nodes
      ensures pool.Valid() && (next == 0 <==> Child(nd, i) !in old(nodes) && old(Taken()) == pool.bmp.size)
      ensures next != 0 ==> Valid() && Child(nd, i) in nodes && next == PHYS_BASE + 4096 * nodes[Child(nd, i)]
      ensures next != 0 ==> nodes == old(nodes)[Child(nd, i) := nodes[Child(nd, i)]]
      ensures Child(nd, i) in old(nodes) ==> nodes == old(nodes)
      ensures next != 0 ==> Taken() == old(Taken()) + if Child(nd, i) in old(nodes) then 0 else 1
      ensures next != 0 ==> forall v :: 0 <= v < VPNS ==> Translate(v) == old(Translate(v))
      ensures next != 0 && Child(nd, i) !in old(nodes) ==>
        EntryIs(pool.ram[..], nodes[nd], i, 4096 * nodes[Child(nd, i)] + 3)
      ensures next == 0 ==> nodes == old(nodes) && pool.bmp.Bits() == old(pool.bmp.Bits())
      ensures next == 0 ==> Unlinked(old(pool.ram[..]), pool.ram[..], nodes[nd], i)
      ensures next == 0 ==> NoTree(pool.ram[..], nodes[Root()], pool.First(), pool.bmp.Bits())
    {
      hide Walk, Count, Vtop, Ptov, Present, Base, Tree, Allotted, OffBitmap, NoTree, Unlinked;
      TablePage(pool.ram[..], nodes, nd, i, pool.First(), pool.bmp.Bits());
      var page := Vtop(table) / 4096;
      if !Present(pool.ram[page][i]) {
        next := AddTable(page, i, nd);
      } else {
        next := Ptov(4096 * Base(pool.ram[page][i]));
        PtovVtop(nodes[Child(nd, i)]);
      }
    }

    /** `pte_init` for entry `v % 512` of the leaf table of `v`, at virtual address `table`. */
    method PteInit(table: nat, i: nat, paddr: nat, ghost v: nat)
      requires Valid() && v < VPNS && Leaf(v) in nodes && table == PHYS_BASE + 4096 * nodes[Leaf(v)] && i == v % 512
      modifies pool.ram
      ensures Valid() && Translate(v) == Some(Page((paddr / 4096) % 0x80_0000_0000, true, false))
      ensures forall u :: 0 <= u < VPNS && u != v ==> Translate(u) == old(Translate(u))
      ensures EntryIs(pool.ram[..], nodes[Leaf(v)], i, (paddr / 4096) % 0x80_0000_0000 * 4096 + 3)
    {
      hide Walk, Entry, Vtop;
      ghost var m := pool.ram[..];
      LeafPage(m, nodes, v, pool.First(), pool.bmp.Bits());
      var page := Vtop(table) / 4096;
      pool.ram[page] := pool.ram[page][i := Entry(paddr)];
      EntryValue(paddr, (paddr / 4096) % 0x80_0000_0000);
      SetLeaf(m, nodes, v, paddr, pool.ram[..]);
    }

    /** The three `pde_init` calls of `paging_map_page`: the address of the leaf table, or NULL if pages run out. */
    method Reach(vaddr: nat, ghost v: nat) returns (leaf: nat)
      requires Valid() && v == Vpn(vaddr)
      modifies pool.bmp.mem, pool.ram, this`nodes
      ensures pool.Valid() && (leaf == 0 <==> old(Taken()) + Missing(old(nodes), v) > pool.bmp.size)
      ensures leaf != 0 ==> Valid() && Leaf(v) in nodes && leaf == PHYS_BASE + 4096 * nodes[Leaf(v)]
      ensures leaf != 0 ==> Taken() == old(Taken()) + Missing(old(nodes), v) && nodes.Keys == old(nodes).Keys + Path(v)
      ensures leaf != 0 ==> nodes[Root()] == old(nodes)[Root()]
      ensures leaf != 0 ==> forall u :: 0 <= u < VPNS ==> Translate(u) == old(Translate(u))
      ensures leaf == 0 ==> Taken() == pool.bmp.size
      ensures leaf == 0 ==> NoTree(pool.ram[..], old(nodes)[Root()], pool.First(), pool.bmp.Bits())
    {
      hide Walk, Tree, NoTree, Unlinked, EntryIs, Allotted, OffBitmap, Pool.Valid, Vpn, Count;
      OffsetsOfVpn(vaddr, v);
      Prefixes(v);
      TakenBound();
      leaf := PdeInit(pml4, vaddr / 0x80_0000_0000 % 512, Root());
      if leaf != 0 {
        TakenBound();
        leaf := PdeInit(leaf, vaddr / 0x4000_0000 % 512, Node(3, v / 0x800_0000));
      }
      if leaf != 0 {
        TakenBound();
        leaf := PdeInit(leaf, vaddr / 0x20_0000 % 512, Node(2, v / 0x4_0000));
      }
      TakenBound();
    }

    /**
      `paging_map_page`: afterwards `vaddr` translates to the frame of `paddr`, and nothing else translates differently.
      `ok` is false where the code goes on through a NULL table, which happens exactly when pages run out.
     */
    method MapPage(vaddr: nat, paddr: nat) returns (ok: bool)
      requires Valid()
      modifies pool.bmp.mem, pool.ram, this`nodes
      ensures pool.Valid() && (ok <==> old(Taken()) + Missing(old(nodes), Vpn(vaddr)) <= pool.bmp.size)
      ensures ok ==> Valid() && Translate(Vpn(vaddr)) == Some(Page((paddr / 4096) % 0x80_0000_0000, true, false))
      ensures ok ==> forall u :: 0 <= u < VPNS && u != Vpn(vaddr) ==> Translate(u) == old(Translate(u))
      ensures ok ==> Taken() == old(Taken()) + Missing(old(nodes), Vpn(vaddr))
      ensures ok ==> nodes.Keys == old(nodes).Keys + Path(Vpn(vaddr))
      ensures !ok ==> Taken() == pool.bmp.size
      ensures !ok ==> NoTree(pool.ram[..], old(nodes)[Root()], pool.First(), pool.bmp.Bits())
    {
      hide Walk, Tree, NoTree, Allotted, OffBitmap, Pool.Valid, Vpn, Count, Missing, Path;
      OffsetsOfVpn(vaddr, Vpn(vaddr));
      var leaf := Reach(vaddr, Vpn(vaddr));
      ok := leaf != 0;
      if ok {
        PteInit(leaf, vaddr / 4096 % 512, paddr, Vpn(vaddr));
      }
    }

    lemma TakenBound()
      requires pool.Valid()
      ensures Taken() <= pool.bmp.size
    {
      CountBound(pool.bmp.Bits());
    }

    /** A fresh root table: an empty tree in which nothing translates; NULL if no page is left. */
    method NewRoot()
      requires pool.Valid() && pool.bmp.size > 0
      modifies pool.bmp.mem, pool.ram, this
      ensures pool.Valid() && (pml4 == 0 <==> old(Taken()) == pool.bmp.size)
      ensures pml4 == 0 ==> pool.ram[..] == old(pool.ram[..]) && pool.bmp.Bits() == old(pool.bmp.Bits())
      ensures pml4 != 0 ==> Valid() && nodes.Keys == {Root()} && Taken() == old(Taken()) + 1
      ensures pml4 != 0 ==> forall v :: 0 <= v < VPNS ==> Translate(v) == None
    {
      hide Took, Count, Walk, Sheltered, Touches, Tree, Allotted, OffBitmap;
      EmptyMap(pool.First(), pool.bmp.Bits(), 8 * pool.bmp.buf, pool.bmp.size);
      ghost var b := pool.bmp.Bits();
      var v;
      ghost var k;
      v, k := pool.GetPages(1, true);
      TookOneIff(b, k, pool.bmp.Bits());
      pml4 := v;
      if k != -1 {
        nodes := map[Root() := pool.First() + k];
        RootTree(pool.ram[..], pool.First() + k, nodes);
        AllottedGrows(map[], pool.First(), b, pool.bmp.Bits(), k, Root());
        OffBitmapGrows(map[], pool.First(), b, k, Root(), 8 * pool.bmp.buf, pool.bmp.size);
      }
    }

    /**
      The loop of `page_tables_init`: every physical page below `total` appears at the address `k_ptov` gives it, no
      other virtual page is mapped, and exactly `Tables(total)` pages of the pool have gone into tables.  It works out
      exactly when the pool has that many pages left.
     */
    method InitTables(total: nat) returns (ok: bool)
      requires pool.Valid() && pool.bmp.size > 0 && total <= VPNS
      modifies pool.bmp.mem, pool.ram, this
      ensures pool.Valid() && (ok <==> old(Taken()) + Tables(total) <= pool.bmp.size)
      ensures ok ==> Valid() && Taken() == old(Taken()) + Tables(total)
      ensures ok ==> forall p :: 0 <= p < total ==> Translate(Vpn(Ptov(4096 * p))) == Some(Page(p, true, false))
      ensures ok ==> forall v :: 0 <= v < VPNS && PhysicalPage(v) >= total ==> Translate(v) == None
      ensures !ok ==> Taken() == pool.bmp.size
      ensures !ok && pml4 != 0 ==>
        PHYS_BASE <= pml4 && NoTree(pool.ram[..], (pml4 - PHYS_BASE) / 4096, pool.First(), pool.bmp.Bits())
    {
      hide Walk, Tree, NoTree, Allotted, OffBitmap, Pool.Valid, Count, Tables, Vpn, Ptov, SpanKeys;
      TakenBound();
      FirstTable();
      TablesGrow(0, total);
      NewRoot();
      if pml4 == 0 {
        return false;
      }
      RootSpans(nodes);
      for page := 0 to total
        invariant Valid() && Spans(nodes, page) && Taken() == old(Taken()) + Tables(page)
        invariant forall v :: 0 <= v < VPNS ==>
          Translate(v) == if PhysicalPage(v) < page then Some(Page(PhysicalPage(v), true, false)) else None
      {
        TablesGrow(page + 1, total);
        var mapped := MapNext(page);
        if !mapped {
          return false;
        }
      }
      TakenBound();
      ok := true;
      forall p | 0 <= p < total ensures Translate(Vpn(Ptov(4096 * p))) == Some(Page(p, true, false)) { VpnOfPage(p); }
    }

    /** One iteration. */
    method MapNext(page: nat) returns (ok: bool)
      requires Valid() && Spans(nodes, page) && page < VPNS
      modifies pool.bmp.mem, pool.ram, this`nodes
      ensures pool.Valid() && (ok <==> old(Taken()) + Tables(page + 1) - Tables(page) <= pool.bmp.size)
      ensures ok ==> Valid() && Spans(nodes, page + 1) && Taken() == old(Taken()) + Tables(page + 1) - Tables(page)
      ensures ok ==> forall v :: 0 <= v < VPNS ==>
        Translate(v) == if PhysicalPage(v) == page then Some(Page(page, true, false)) else old(Translate(v))
      ensures !ok ==> Taken() == pool.bmp.size
      ensures !ok ==> NoTree(pool.ram[..], old(nodes)[Root()], pool.First(), pool.bmp.Bits())
    {
      hide Walk, Tree, NoTree, Allotted, OffBitmap, Pool.Valid, SpanKeys, Count, Tables, Missing, Path, Vpn, Ptov;
      VpnOfPage(page);
      SpansNext(nodes, page);
      var paddr := page * 4096;
      ok := MapPage(Ptov(paddr), paddr);
      if ok {
        SpansStep(old(nodes).Keys, nodes.Keys, page);
        SpansOf(nodes, page + 1);
      }
    }
  }

  lemma FirstTable()
    ensures Tables(0) == 1
  {
  }

  lemma RootSpans(nodes: map<Node, nat>)
    requires nodes.Keys == {Root()}
    ensures Spans(nodes, 0)
  {
  }

  lemma NullPage()
    ensures Vtop(0) == 0x8000_0000
  {
  }

  lemma TookOneIff(b: seq<bool>, k: int, b': seq<bool>)
    requires Took(b, 1, k, b') && -1 <= k
    ensures k == -1 <==> Count(b) == |b|
    ensures if k == -1 then b' == b else 0 <= k < |b| && !b[k] && Count(b') == Count(b) + 1
  {
    hide Count;
    TookCount(b, 1, k, b');
    CountBound(b);
    CountBound(b');
    if k == -1 && Count(b) < |b| { TookOne(b, k, b'); }
  }

  // ----- A pool that is too small

  /** A pool of one free page, with its bitmap on the page behind it. */
  method OnePagePool() returns (pool: Pool)
    ensures pool.Valid() && fresh(pool) && fresh(pool.bmp) && fresh(pool.bmp.mem) && fresh(pool.ram)
    ensures pool.bmp.size == 1 && Count(pool.bmp.Bits()) == 0 && pool.First() == 0 && pool.ram.Length == 1
  {
    var mem := new bool[32832](i => false);
    var ram := new seq<nat>[1](i => Zeros());
    var bmp := new Bitmap(mem, 4096);
    bmp.InitBuf(1);
    pool := new Pool(ram, bmp, PHYS_BASE);
    assert mem[..][32768] == false;
    assert pool.bmp.Bits()[0] == mem[..][32768];
    assert pool.bmp.Bits() == [false];
  }

  lemma UnlinkedNull(m: Memory, m': Memory, page: nat, i: nat)
    requires Unlinked(m, m', page, i)
    ensures EntryIs(m', page, i, 0x8000_0003)
  {
  }

  /** It has room for the root table only: the root's last entry then names the frame at 2 GiB. */
  method ExhaustedExample() returns (k: Kernel, next: nat)
    ensures k.pool.Valid() && next == 0 && k.pml4 == PHYS_BASE
    ensures NoTree(k.pool.ram[..], 0, k.pool.First(), k.pool.bmp.Bits())
    ensures EntryIs(k.pool.ram[..], 0, 511, 0x8000_0003)
  {
    hide Entry, Walk, NoTree, Tree, Count, Sheltered, OffBitmap, Unlinked, EntryIs;
    var pool := OnePagePool();
    k := new Kernel(pool);
    k.NewRoot();
    assert k.nodes[Root()] == 0;
    ghost var m := pool.ram[..];
    next := k.PdeInit(k.pml4, 511, Root());
    UnlinkedNull(m, pool.ram[..], 0, 511);
  }

  /** So not even one page can be mapped. */
  method TooSmallExample() returns (k: Kernel, ok: bool)
    ensures !ok && k.pool.bmp.size == 1
  {
    var pool := OnePagePool();
    k := new Kernel(pool);
    ok := k.InitTables(1);
    assert Tables(1) == 4;
  }
}
