/** Addresses: the kernel's window onto physical memory, and the index fields of a virtual address. */
module Addresses {

  const SPACE: nat := 0x1_0000_0000_0000_0000 // 2^64, the address arithmetic of the machine
  const PHYS_BASE: nat := 0xFFFF_FFFF_8000_0000
  const VPNS: nat := 0x10_0000_0000 // 2^36 virtual pages

  function Ptov(p: nat): nat { (p + PHYS_BASE) % SPACE }

  function Vtop(v: nat): nat { (v - PHYS_BASE) % SPACE }

  /** The virtual page number that the four index fields of an address spell out. */
  function Vpn(x: nat): nat { x / 4096 % VPNS }

  /** `GET_PML4_OFS` and its siblings pick the fields of the page number. */
  lemma OffsetsOfVpn(x: nat, v: nat)
    requires v == Vpn(x)
    ensures v < VPNS
    ensures x / 0x80_0000_0000 % 512 == v / 0x800_0000 % 512
    ensures x / 0x4000_0000 % 512 == v / 0x4_0000 % 512
    ensures x / 0x20_0000 % 512 == v / 512 % 512
    ensures x / 4096 % 512 == v % 512
  {
    var y := x / 4096;
    FieldOf(y, v, y / VPNS);
    assert x / 0x80_0000_0000 == y / 0x800_0000 by { Nested(x, 0x800_0000); }
    assert x / 0x4000_0000 == y / 0x4_0000 by { Nested(x, 0x4_0000); }
    assert x / 0x20_0000 == y / 512 by { Nested(x, 512); }
  }

  lemma Nested(x: nat, d: nat)
    requires d == 512 || d == 0x4_0000 || d == 0x800_0000
    ensures x / 4096 / d == x / (4096 * d)
  {
    var q, r := x / (4096 * d), x % (4096 * d);
    assert x == 4096 * (d * q + r / 4096) + r % 4096;
    assert x / 4096 == d * q + r / 4096;
  }

  lemma FieldOf(y: nat, v: nat, q: nat)
    requires y == 0x10_0000_0000 * q + v && v < 0x10_0000_0000
    ensures y / 0x800_0000 % 512 == v / 0x800_0000 % 512
    ensures y / 0x4_0000 % 512 == v / 0x4_0000 % 512
    ensures y / 512 % 512 == v / 512 % 512
    ensures y % 512 == v % 512
  {
    assert y / 0x800_0000 == 512 * q + v / 0x800_0000;
    assert y / 0x4_0000 == 512 * (512 * q) + v / 0x4_0000;
    assert y / 512 == 512 * (0x4_0000 * q) + v / 512;
    assert y == 512 * (0x800_0000 * q) + v;
    FieldShift(q, v / 0x800_0000);
    FieldShift(512 * q, v / 0x4_0000);
    FieldShift(0x4_0000 * q, v / 512);
    FieldShift(0x800_0000 * q, v);
  }

  lemma FieldShift(q: nat, w: nat)
    ensures (512 * q + w) % 512 == w % 512
  {
  }

  /** Addresses of physical pages below 2 GiB convert both ways. */
  lemma PtovVtop(p: nat)
    requires p < 0x8_0000
    ensures Ptov(4096 * p) == PHYS_BASE + 4096 * p && Vtop(PHYS_BASE + 4096 * p) == 4096 * p
  {
  }
}
