/** Four-level page tables as a tree of 512-entry pages, and the walk that translates addresses through it. */
module PageTree {
  import opened Addresses

  function Pow2(n: nat): (p: nat)
    ensures p > 0
  {
    if n == 0 then 1 else 2 * Pow2(n - 1)
  }

  function Times(a: nat, b: nat): nat { a * b }

  function Quot(a: nat, b: nat): nat
    requires b > 0
  {
    a / b
  }

  function Rem(a: nat, b: nat): nat
    requires b > 0
  {
    a % b
  }

  // ----- Bit fields of an entry

  /** `GET_BITS` */
  function GetBits(value: nat, pos: nat, len: nat): nat {
    Rem(Quot(value, Pow2(pos)), Pow2(len))
  }

  /** `SET_BITS`: the bits above and below the field, and the field replaced. */
  function SetBits(value: nat, pos: nat, len: nat, v: nat): nat {
    Times(Quot(value, Pow2(pos + len)), Pow2(pos + len)) + Times(Rem(v, Pow2(len)), Pow2(pos)) + Rem(value, Pow2(pos))
  }

  lemma TimesOne(b: nat)
    ensures Times(1, b) == b
  {
  }

  lemma QuotLess(q: nat, r: nat, q': nat, r': nat, b: nat)
    requires r < b && Times(q, b) + r == Times(q', b) + r'
    ensures q >= q'
  {
    hide Times;
    if q < q' {
      TimesSum(q, 1, b);
      TimesOne(b);
      TimesSum(q + 1, q' - q - 1, b);
      assert false;
    }
  }

  lemma DivIs(a: nat, q: nat, b: nat, r: nat)
    requires r < b && a == Times(q, b) + r
    ensures Quot(a, b) == q && Rem(a, b) == r
  {
    hide Times, Quot, Rem;
    RemBound(a, b);
    QuotLess(q, r, Quot(a, b), Rem(a, b), b);
    QuotLess(Quot(a, b), Rem(a, b), q, r, b);
  }

  lemma {:induction false} PowSum(m: nat, n: nat)
    ensures Pow2(m + n) == Times(Pow2(m), Pow2(n))
  {
    hide Times;
    TimesOne(Pow2(n));
    if m > 0 {
      PowSum(m - 1, n);
      TimesSum(Pow2(m - 1), Pow2(m - 1), Pow2(n));
      assert m + n - 1 == m - 1 + n;
    }
  }

  lemma TimesAssoc(a: nat, b: nat, c: nat)
    ensures Times(a, Times(b, c)) == Times(Times(a, c), b)
  {
  }

  lemma TimesSum(a: nat, b: nat, c: nat)
    ensures Times(a + b, c) == Times(a, c) + Times(b, c)
  {
  }

  lemma RemBound(a: nat, b: nat)
    requires b > 0
    ensures Rem(a, b) < b && a == Times(Quot(a, b), b) + Rem(a, b)
  {
  }

  lemma FieldBelow(v: nat, p: nat, lo: nat, l: nat)
    requires v < l && lo < p
    ensures Times(v, p) + lo < Times(p, l)
  {
    assert (v + 1) * p <= l * p;
  }

  /** `SET_BITS` replaces the field by the low bits of the new value and leaves the bits above and below it. */
  lemma SetBitsIs(value: nat, pos: nat, len: nat, v: nat)
    ensures GetBits(SetBits(value, pos, len, v), pos, len) == Rem(v, Pow2(len))
    ensures Quot(SetBits(value, pos, len, v), Pow2(pos + len)) == Quot(value, Pow2(pos + len))
    ensures Rem(SetBits(value, pos, len, v), Pow2(pos)) == Rem(value, Pow2(pos))
  {
    hide Times, Quot, Rem, Pow2;
    var s, p, l := SetBits(value, pos, len, v), Pow2(pos), Pow2(len);
    var hi, f, lo := Quot(value, Pow2(pos + len)), Rem(v, l), Rem(value, p);
    RemBound(v, l);
    RemBound(value, p);
    PowSum(pos, len);
    FieldBelow(f, p, lo, l);
    DivIs(s, hi, Pow2(pos + len), Times(f, p) + lo);
    TimesAssoc(hi, p, l);
    TimesSum(Times(hi, l), f, p);
    DivIs(s, Times(hi, l) + f, p, lo);
    DivIs(Times(hi, l) + f, hi, l, f);
  }

  predicate Present(e: nat) { GetBits(e, 0, 1) != 0 }

  /** The page-size bit, which ends the walk early at the two middle levels. */
  predicate Large(e: nat) { GetBits(e, 7, 1) != 0 }

  predicate Writable(e: nat) { GetBits(e, 1, 1) != 0 }

  predicate User(e: nat) { GetBits(e, 2, 1) != 0 }

  /** The page number in an entry. */
  function Base(e: nat): nat { GetBits(e, 12, 39) }

  lemma FieldPowers()
    ensures Pow2(0) == 1 && Pow2(1) == 2 && Pow2(2) == 4 && Pow2(3) == 8 && Pow2(7) == 128 && Pow2(12) == 4096
    ensures Pow2(39) == 0x80_0000_0000 && Pow2(51) == 0x8_0000_0000_0000
  {
    assert Pow2(7) == 0x80;
    assert Pow2(8) == 2 * Pow2(7);
    assert Pow2(12) == 0x10 * Pow2(8);
    assert Pow2(20) == 0x100 * Pow2(12);
    assert Pow2(28) == 0x100 * Pow2(20);
    assert Pow2(36) == 0x100 * Pow2(28);
    assert Pow2(39) == 8 * Pow2(36);
    assert Pow2(47) == 0x100 * Pow2(39);
    assert Pow2(51) == 0x10 * Pow2(47);
  }

  /** The entry that `pde_init` and `pte_init` build for a physical address: base, not user, writable, present. */
  function Entry(paddr: nat): nat {
    SetBits(SetBits(SetBits(SetBits(0, 12, 39, paddr / 4096), 2, 1, 0), 1, 1, 1), 0, 1, 1)
  }

  lemma EntryValue(paddr: nat, b: nat)
    requires b == (paddr / 4096) % 0x80_0000_0000
    ensures Entry(paddr) == b * 4096 + 3
  {
    hide SetBits, Pow2;
    SetBase(paddr, b);
    SetZero(b);
    SetOne(b);
    SetPresent(b);
  }

  lemma SetBase(paddr: nat, b: nat)
    requires b == (paddr / 4096) % 0x80_0000_0000
    ensures SetBits(0, 12, 39, paddr / 4096) == b * 4096
  {
    FieldPowers();
    assert Rem(paddr / 4096, 0x80_0000_0000) == b && Times(b, 4096) == b * 4096;
  }

  lemma SetZero(b: nat)
    ensures SetBits(b * 4096, 2, 1, 0) == b * 4096
  {
    hide Times, Quot, Rem, Pow2;
    FieldPowers();
    Eighths(b);
  }

  lemma SetOne(b: nat)
    ensures SetBits(b * 4096, 1, 1, 1) == b * 4096 + 2
  {
    hide Times, Quot, Rem, Pow2;
    FieldPowers();
    Quarters(b);
  }

  lemma SetPresent(b: nat)
    ensures SetBits(b * 4096 + 2, 0, 1, 1) == b * 4096 + 3
  {
    hide Times, Quot, Rem, Pow2;
    FieldPowers();
    Halves(b);
  }

  lemma Eighths(b: nat)
    ensures Quot(b * 4096, 8) == b * 512 && Times(b * 512, 8) == b * 4096 && Rem(0, 2) == 0 && Times(0, 4) == 0 &&
      Rem(b * 4096, 4) == 0
  {
  }

  lemma Quarters(b: nat)
    ensures Quot(b * 4096, 4) == b * 1024 && Times(b * 1024, 4) == b * 4096 && Rem(1, 2) == 1 && Times(1, 2) == 2 &&
      Rem(b * 4096, 2) == 0
  {
  }

  lemma Halves(b: nat)
    ensures Quot(b * 4096 + 2, 2) == b * 2048 + 1 && Times(b * 2048 + 1, 2) == b * 4096 + 2
    ensures Rem(1, 2) == 1 && Times(1, 1) == 1 && Rem(b * 4096 + 2, 1) == 0
  {
  }

  lemma PresentRead(b: nat)
    ensures Quot(b * 4096 + 3, 1) == b * 4096 + 3 && Rem(b * 4096 + 3, 2) == 1
  {
    assert b * 4096 + 3 == 2 * (b * 2048 + 1) + 1;
  }

  lemma WritableRead(b: nat)
    ensures Quot(b * 4096 + 3, 2) == b * 2048 + 1 && Rem(b * 2048 + 1, 2) == 1
  {
    assert b * 4096 + 3 == 2 * (b * 2048 + 1) + 1;
  }

  lemma UserRead(b: nat)
    ensures Quot(b * 4096 + 3, 4) == b * 1024 && Rem(b * 1024, 2) == 0
  {
    assert b * 4096 + 3 == 4 * (b * 1024) + 3;
  }

  lemma LargeRead(b: nat)
    ensures Quot(b * 4096 + 3, 128) == b * 32 && Rem(b * 32, 2) == 0
  {
    assert b * 4096 + 3 == 128 * (b * 32) + 3;
  }

  lemma BaseRead(b: nat)
    requires b < 0x80_0000_0000
    ensures Quot(b * 4096 + 3, 4096) == b && Rem(b, 0x80_0000_0000) == b
  {
  }

  /** The processor reads back from an entry what the kernel put there. */
  lemma EntryFields(paddr: nat, b: nat)
    requires b == (paddr / 4096) % 0x80_0000_0000
    ensures Present(Entry(paddr)) && Base(Entry(paddr)) == b && Entry(paddr) < SPACE
    ensures Writable(Entry(paddr)) && !User(Entry(paddr)) && !Large(Entry(paddr))
  {
    hide Entry, Times, Quot, Rem, Pow2;
    FieldPowers();
    EntryValue(paddr, b);
    PresentRead(b);
    WritableRead(b);
    UserRead(b);
    LargeRead(b);
    BaseRead(b);
  }

  // ----- Tables

  /** Physical memory as pages of 512 entries. */
  type Memory = seq<seq<nat>>

  ghost predicate Paged(m: Memory) {
    forall p :: 0 <= p < |m| ==> |m[p]| == 512
  }

  datatype Option<T> = None | Some(value: T)

  /** Entry `i` of the table on page `p`, if it is present. */
  function Lookup(m: Memory, p: nat, i: nat): Option<nat> {
    if p < |m| && i < |m[p]| && Present(m[p][i]) then Some(m[p][i]) else None
  }

  /** What the processor makes of a virtual page: the frame, and whether it may be written and used by user code. */
  datatype Page = Page(frame: nat, writable: bool, user: bool)

  /** What it makes of an entry above the leaves: another table, a large page, or a fault; with the entry's rights. */
  datatype Hit = Fault | Table(page: nat, writable: bool, user: bool) | Frame(frame: nat, writable: bool, user: bool)

  /**
    Entry `i` of the table on page `p`, below which lie `reach` pages each.  With the page-size bit it maps them all at
    once, from a frame whose low bits are reserved save one; at the root the bit itself is reserved.
   */
  function Descend(m: Memory, p: nat, i: nat, reach: nat, v: nat): Hit
    requires reach > 0
  {
    match Lookup(m, p, i)
    case None => Fault
    case Some(e) =>
      if !Large(e) then Table(Base(e), Writable(e), User(e))
      else if reach > 0x4_0000 || Rem(Base(e), reach) > 1 then Fault
      else Frame(Times(Quot(Base(e), reach), reach) + Rem(v, reach), Writable(e), User(e))
  }

  function ReadLeaf(m: Memory, p: nat, i: nat): Option<Page> {
    match Lookup(m, p, i)
    case None => None
    case Some(e) => Some(Page(Base(e), Writable(e), User(e)))
  }

  /** A page below entries with the given rights has a right only if they all do. */
  function Limited(page: Option<Page>, writable: bool, user: bool): Option<Page> {
    match page
    case None => None
    case Some(pg) => Some(Page(pg.frame, pg.writable && writable, pg.user && user))
  }

  /** The walk below the third level, from the second-level table on page `p`. */
  function WalkSecond(m: Memory, p: nat, v: nat): Option<Page> {
    match Descend(m, p, v / 512 % 512, 512, v)
    case Fault => None
    case Frame(f, w, u) => Some(Page(f, w, u))
    case Table(p1, w, u) => Limited(ReadLeaf(m, p1, v % 512), w, u)
  }

  function WalkThird(m: Memory, p: nat, v: nat): Option<Page> {
    match Descend(m, p, v / 0x4_0000 % 512, 0x4_0000, v)
    case Fault => None
    case Frame(f, w, u) => Some(Page(f, w, u))
    case Table(p2, w, u) => Limited(WalkSecond(m, p2, v), w, u)
  }

  /** The four-level walk for virtual page `v`, from the root table's page: the page reached, if any. */
  function Walk(m: Memory, root: nat, v: nat): Option<Page> {
    match Descend(m, root, v / 0x800_0000 % 512, 0x800_0000, v)
    case Fault => None
    case Frame(f, w, u) => Some(Page(f, w, u))
    case Table(p3, w, u) => Limited(WalkThird(m, p3, v), w, u)
  }

  // ----- The tree the tables form

  /** A table is known by its level, 4 at the root, and the index prefix that leads to it. */
  datatype Node = Node(level: nat, prefix: nat)

  function Root(): Node { Node(4, 0) }

  function Child(nd: Node, i: nat): Node
    requires nd.level > 0
  {
    Node(nd.level - 1, 512 * nd.prefix + i)
  }

  function Parent(nd: Node): Node { Node(nd.level + 1, nd.prefix / 512) }

  function Leaf(v: nat): Node { Node(1, v / 512) }

  ghost predicate EntryOk(m: Memory, nodes: map<Node, nat>, nd: Node, i: nat)
    requires nd in nodes && nd.level > 0 && nodes[nd] < |m| && i < |m[nodes[nd]]|
  {
    var e := m[nodes[nd]][i];
    && (Present(e) <==> Child(nd, i) in nodes)
    && (Child(nd, i) in nodes ==> Base(e) == nodes[Child(nd, i)] && !Large(e) && Writable(e) && !User(e))
  }

  ghost predicate NodeOk(m: Memory, nodes: map<Node, nat>, nd: Node)
    requires nd in nodes
  {
    && 1 <= nd.level <= 4 && nodes[nd] < |m| && |m[nodes[nd]]| == 512
    && (nd != Root() ==> nd.level < 4 && Parent(nd) in nodes)
    && (nd.level > 1 ==> forall i {:trigger EntryOk(m, nodes, nd, i)} :: 0 <= i < 512 ==> EntryOk(m, nodes, nd, i))
  }

  /** `nodes` gives each table its own page, and the present entries above the leaves are exactly its edges. */
  ghost predicate Tree(m: Memory, nodes: map<Node, nat>) {
    && Root() in nodes
    && (forall nd {:trigger NodeOk(m, nodes, nd)} :: nd in nodes ==> NodeOk(m, nodes, nd))
    && (forall x, y {:trigger nodes[x], nodes[y]} :: x in nodes && y in nodes && nodes[x] == nodes[y] ==> x == y)
  }

  /** One step of the walk follows an edge of the tree. */
  lemma DescendIs(m: Memory, nodes: map<Node, nat>, nd: Node, i: nat, reach: nat, v: nat)
    requires Tree(m, nodes) && nd in nodes && nd.level > 1 && i < 512 && reach > 0
    ensures Descend(m, nodes[nd], i, reach, v) ==
      if Child(nd, i) in nodes then Table(nodes[Child(nd, i)], true, false) else Fault
  {
    assert NodeOk(m, nodes, nd);
    assert EntryOk(m, nodes, nd, i);
  }

  lemma DivTwice(v: nat)
    ensures v / 512 / 512 == v / 0x4_0000
  {
    var q, r := v / 0x4_0000, v % 0x4_0000;
    assert v == 512 * (512 * q + r / 512) + r % 512;
    assert v / 512 == 512 * q + r / 512;
  }

  lemma DivThrice(v: nat)
    ensures v / 0x4_0000 / 512 == v / 0x800_0000
  {
    var q, r := v / 0x800_0000, v % 0x800_0000;
    assert v == 0x4_0000 * (512 * q + r / 0x4_0000) + r % 0x4_0000;
    assert v / 0x4_0000 == 512 * q + r / 0x4_0000;
  }

  lemma Prefixes(v: nat)
    requires v < VPNS
    ensures Child(Root(), v / 0x800_0000 % 512) == Node(3, v / 0x800_0000)
    ensures Child(Node(3, v / 0x800_0000), v / 0x4_0000 % 512) == Node(2, v / 0x4_0000)
    ensures Child(Node(2, v / 0x4_0000), v / 512 % 512) == Leaf(v)
    ensures Parent(Leaf(v)) == Node(2, v / 0x4_0000) && Parent(Node(2, v / 0x4_0000)) == Node(3, v / 0x800_0000)
  {
    DivTwice(v);
    DivThrice(v);
    var a, b, c := v / 512, v / 0x4_0000, v / 0x800_0000;
    assert a == 512 * b + a % 512 && b == 512 * c + b % 512;
  }

  /** In a tree the walk ends at the leaf table of the page, if that table exists; no page is open to user code. */
  lemma WalkIs(m: Memory, nodes: map<Node, nat>, v: nat)
    requires Tree(m, nodes) && v < VPNS
    ensures Root() in nodes
    ensures Walk(m, nodes[Root()], v) ==
      if Leaf(v) in nodes then Limited(ReadLeaf(m, nodes[Leaf(v)], v % 512), true, false) else None
  {
    hide Descend, ReadLeaf;
    Prefixes(v);
    var n3, n2 := Node(3, v / 0x800_0000), Node(2, v / 0x4_0000);
    DescendIs(m, nodes, Root(), v / 0x800_0000 % 512, 0x800_0000, v);
    if Leaf(v) in nodes { assert NodeOk(m, nodes, Leaf(v)); }
    if n2 in nodes { assert NodeOk(m, nodes, n2); }
    if n3 in nodes {
      DescendIs(m, nodes, n3, v / 0x4_0000 % 512, 0x4_0000, v);
      if n2 in nodes {
        DescendIs(m, nodes, n2, v / 512 % 512, 512, v);
      }
    }
  }

  // ----- Growing the tree and setting leaves

  function Zeros(): seq<nat> { seq(512, i => 0) }

  lemma ZerosIs(i: nat)
    requires i < 512
    ensures |Zeros()| == 512 && Zeros()[i] == 0
  {
  }

  /** Entry `i` of page `p` set to `e`. */
  function Put(m: Memory, p: nat, i: nat, e: nat): Memory
    requires p < |m| && i < |m[p]|
  {
    var page: seq<nat> := m[p][i := e];
    m[p := page]
  }

  lemma ChildInjective(x: Node, i: nat, y: Node, j: nat)
    requires x.level > 0 && y.level > 0 && i < 512 && j < 512 && Child(x, i) == Child(y, j)
    ensures x == y && i == j
  {
  }

  /** A zeroed page that no table uses becomes the missing table below entry `i` of `nd`. */
  ghost predicate Fresh(m: Memory, nodes: map<Node, nat>, nd: Node, i: nat, pg: nat) {
    && Tree(m, nodes) && nd in nodes && nd.level > 1 && nodes[nd] < |m| && |m[nodes[nd]]| == 512 && i < 512
    && Child(nd, i) !in nodes
    && pg < |m| && pg < 0x80_0000_0000 && (forall x :: x in nodes ==> nodes[x] != pg)
    && m[pg] == Zeros()
  }

  lemma HasParent(m: Memory, nodes: map<Node, nat>, x: Node)
    requires Tree(m, nodes) && x in nodes && x != Root()
    ensures Parent(x) in nodes
  {
    assert NodeOk(m, nodes, x);
  }

  lemma GrowEntries(m: Memory, nodes: map<Node, nat>, nd: Node, i: nat, pg: nat, m': Memory, nodes': map<Node, nat>,
                    x: Node, j: nat)
    requires Fresh(m, nodes, nd, i, pg) && m' == Put(m, nodes[nd], i, Entry(pg * 4096)) &&
      nodes' == nodes[Child(nd, i) := pg]
    requires x in nodes' && x.level > 1 && j < 512
    ensures nodes'[x] < |m'| && |m'[nodes'[x]]| == 512 && EntryOk(m', nodes', x, j)
  {
    hide Entry, Base, Large, Writable, User;
    var c := Child(nd, i);
    assert NodeOk(m, nodes, nd);
    if x == c {
      assert Parent(Child(c, j)) == c;
      if Child(c, j) in nodes {
        HasParent(m, nodes, Child(c, j));
        assert false;
      }
      assert m'[pg][j] == 0;
      ZeroNotPresent();
    } else {
      assert NodeOk(m, nodes, x) && EntryOk(m, nodes, x, j);
      if x == nd && j == i {
        EntryFields(pg * 4096, pg);
      } else if Child(x, j) == c {
        ChildInjective(x, j, nd, i);
      }
    }
  }

  lemma ZeroNotPresent()
    ensures !Present(0)
  {
    FieldPowers();
  }

  lemma GrowTree(m: Memory, nodes: map<Node, nat>, nd: Node, i: nat, pg: nat, m': Memory, nodes': map<Node, nat>)
    requires Fresh(m, nodes, nd, i, pg) && m' == Put(m, nodes[nd], i, Entry(pg * 4096)) &&
      nodes' == nodes[Child(nd, i) := pg]
    ensures Tree(m', nodes')
  {
    hide Entry, EntryOk;
    assert NodeOk(m, nodes, nd);
    forall x | x in nodes' ensures NodeOk(m', nodes', x) {
      if x in nodes { assert NodeOk(m, nodes, x); }
      if x.level > 1 {
        forall j | 0 <= j < 512 ensures EntryOk(m', nodes', x, j) {
          GrowEntries(m, nodes, nd, i, pg, m', nodes', x, j);
        }
      }
      if x == Child(nd, i) { assert Parent(x) == nd; }
    }
  }

  /** Adding an empty table changes no translation. */
  lemma GrowKeepsWalks(m: Memory, nodes: map<Node, nat>, nd: Node, i: nat, pg: nat, m': Memory, nodes': map<Node, nat>,
                       v: nat)
    requires Fresh(m, nodes, nd, i, pg) && m' == Put(m, nodes[nd], i, Entry(pg * 4096)) &&
      nodes' == nodes[Child(nd, i) := pg]
    requires v < VPNS && Root() in nodes
    ensures Walk(m', nodes[Root()], v) == Walk(m, nodes[Root()], v)
  {
    hide Entry, Walk;
    GrowTree(m, nodes, nd, i, pg, m', nodes');
    WalkIs(m, nodes, v);
    WalkIs(m', nodes', v);
    if Leaf(v) in nodes {
      assert NodeOk(m, nodes, Leaf(v));
      assert nodes[Leaf(v)] != nodes[nd];
    } else if Leaf(v) == Child(nd, i) {
      ZeroNotPresent();
    }
  }

  /** Setting a leaf entry changes the translation of its own page and of no other. */
  lemma SetLeaf(m: Memory, nodes: map<Node, nat>, v: nat, paddr: nat, m': Memory)
    requires Tree(m, nodes) && v < VPNS && Leaf(v) in nodes && nodes[Leaf(v)] < |m| && |m[nodes[Leaf(v)]]| == 512
    requires m' == Put(m, nodes[Leaf(v)], v % 512, Entry(paddr)) && Root() in nodes
    ensures Tree(m', nodes)
    ensures Walk(m', nodes[Root()], v) == Some(Page((paddr / 4096) % 0x80_0000_0000, true, false))
    ensures forall u :: 0 <= u < VPNS && u != v ==> Walk(m', nodes[Root()], u) == Walk(m, nodes[Root()], u)
  {
    hide Entry, Walk, Base, Present, Large, Writable, User;
    forall x | x in nodes ensures NodeOk(m', nodes, x) {
      assert NodeOk(m, nodes, x);
      if x.level > 1 {
        assert nodes[x] != nodes[Leaf(v)];
        forall j | 0 <= j < 512 ensures EntryOk(m', nodes, x, j) { assert EntryOk(m, nodes, x, j); }
      }
    }
    EntryFields(paddr, (paddr / 4096) % 0x80_0000_0000);
    WalkIs(m', nodes, v);
    forall u | 0 <= u < VPNS && u != v ensures Walk(m', nodes[Root()], u) == Walk(m, nodes[Root()], u) {
      WalkIs(m, nodes, u);
      WalkIs(m', nodes, u);
      if Leaf(u) in nodes && nodes[Leaf(u)] == nodes[Leaf(v)] { assert Leaf(u) == Leaf(v) && u % 512 != v % 512; }
    }
  }

  /** Zeroing a page that is no table changes neither the tree nor any translation. */
  lemma ZeroUnused(m: Memory, nodes: map<Node, nat>, pg: nat, m': Memory)
    requires Tree(m, nodes) && pg < |m| && (forall x :: x in nodes ==> nodes[x] != pg) && m' == m[pg := Zeros()]
    ensures Tree(m', nodes)
    ensures forall v :: 0 <= v < VPNS ==> Walk(m', nodes[Root()], v) == Walk(m, nodes[Root()], v)
  {
    hide Walk, Present, Base, Large, Writable, User;
    forall x | x in nodes ensures NodeOk(m', nodes, x) {
      assert NodeOk(m, nodes, x);
      if x.level > 1 {
        forall j | 0 <= j < 512 ensures EntryOk(m', nodes, x, j) { assert EntryOk(m, nodes, x, j); }
      }
    }
    forall v | 0 <= v < VPNS ensures Walk(m', nodes[Root()], v) == Walk(m, nodes[Root()], v) {
      WalkIs(m, nodes, v);
      WalkIs(m', nodes, v);
    }
  }

  /** A page taken for a missing table, zeroed and linked, extends the tree and changes no translation. */
  lemma NewTable(m: Memory, nodes: map<Node, nat>, nd: Node, i: nat, pg: nat, m1: Memory, m2: Memory,
                 nodes': map<Node, nat>)
    requires Tree(m, nodes) && nd in nodes && nd.level > 1 && i < 512 && Child(nd, i) !in nodes
    requires pg < |m| && pg < 0x80_0000_0000 && (forall x :: x in nodes ==> nodes[x] != pg) && m1 == m[pg := Zeros()]
    requires nodes[nd] < |m1| && |m1[nodes[nd]]| == 512 && m2 == Put(m1, nodes[nd], i, Entry(pg * 4096))
    requires nodes' == nodes[Child(nd, i) := pg]
    ensures Tree(m2, nodes')
    ensures forall v :: 0 <= v < VPNS ==> Walk(m2, nodes[Root()], v) == Walk(m, nodes[Root()], v)
  {
    hide Walk, Entry, Tree;
    RootIn(m, nodes);
    ZeroUnused(m, nodes, pg, m1);
    GrowTree(m1, nodes, nd, i, pg, m2, nodes');
    forall v | 0 <= v < VPNS ensures Walk(m2, nodes[Root()], v) == Walk(m, nodes[Root()], v) {
      GrowKeepsWalks(m1, nodes, nd, i, pg, m2, nodes', v);
    }
  }

  lemma RootIn(m: Memory, nodes: map<Node, nat>)
    requires Tree(m, nodes)
    ensures Root() in nodes
  {
  }

  /**
    The frame a mapped page translates to is the address asked for exactly when that is page-aligned and below 2^51.
   */
  lemma FrameExact(paddr: nat)
    ensures (paddr / 4096) % 0x80_0000_0000 * 4096 == paddr <==> paddr % 4096 == 0 && paddr < 0x8_0000_0000_0000
  {
    var q := paddr / 4096;
    assert paddr == 4096 * q + paddr % 4096;
    if paddr < 0x8_0000_0000_0000 {
      assert q % 0x80_0000_0000 == q;
    } else {
      assert q >= 0x80_0000_0000 && q % 0x80_0000_0000 < q;
    }
  }
}
