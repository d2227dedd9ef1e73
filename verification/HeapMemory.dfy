/** Block headers as bytes: how the 12-byte headers of a heap sit in memory. */
module HeapMemory {
  import opened Bytes
  import opened HeapLayout

  /** The packed header: `lom` is the freelist link of a free block, the magic word of a used one. */
  datatype Hdr = Hdr(prev: nat, sz: nat, lom: nat)

  const ALLOC_BIT: nat := 0x8000
  const MAGIC: nat := 0xDEADBEEFBABECAFE
  const U16: nat := 0x1_0000
  const U64: nat := 0x1_0000_0000_0000_0000

  /** `sz & ~WDM_ALLOC_BIT` for a 16-bit `sz`. */
  function ActualSize(sz: nat): nat {
    if sz >= ALLOC_BIT then sz - ALLOC_BIT else sz
  }

  ghost function Decode(s: seq<byte>): Hdr
    requires |s| == 12
  {
    Hdr(LittleEndian(s[0..2]), LittleEndian(s[2..4]), LittleEndian(s[4..12]))
  }

  ghost function HeaderAt(m: seq<byte>, a: nat): Hdr
    requires a + HDR <= |m|
  {
    Decode(m[a..a + HDR])
  }

  /** The header at `a` is in memory `m` and overlaps none further up. */
  ghost predicate HeldAt(m: seq<byte>, hdrs: map<nat, Hdr>, a: nat)
    requires a in hdrs
  {
    && a + HDR <= |m|
    && HeaderAt(m, a) == hdrs[a]
    && forall b :: b in hdrs && a < b ==> a + HDR <= b
  }

  /** Memory `m` holds the headers `hdrs`. */
  ghost predicate Holds(m: seq<byte>, hdrs: map<nat, Hdr>) {
    forall a {:trigger HeldAt(m, hdrs, a)} :: a in hdrs ==> HeldAt(m, hdrs, a)
  }

  /** Byte `x` belongs to none of the headers at `K`. */
  ghost predicate Clear(K: set<nat>, x: int) {
    forall a :: a in K ==> !(a <= x < a + HDR)
  }

  /** Only bytes of headers at `K` differ. */
  ghost predicate Frames(m: seq<byte>, m': seq<byte>, K: set<nat>) {
    |m'| == |m| && forall x {:trigger m'[x]} :: 0 <= x < |m| && Clear(K, x) ==> m'[x] == m[x]
  }

  /** The three header fields, as offset and width. */
  datatype Field = PrevSz | Sz | Lom {
    function Ofs(): nat { match this case PrevSz => 0 case Sz => 2 case Lom => 4 }
    function Width(): nat { if Lom? then 8 else 2 }
    ghost function Set(h: Hdr, v: nat): Hdr {
      match this case PrevSz => h.(prev := v) case Sz => h.(sz := v) case Lom => h.(lom := v)
    }
    ghost function Get(h: Hdr): nat {
      match this case PrevSz => h.prev case Sz => h.sz case Lom => h.lom
    }
    function Limit(): nat { if Lom? then U64 else U16 }
  }

  lemma CapacityOfFields(f: Field)
    ensures Capacity(f.Width()) == f.Limit()
  {
    assert Capacity(2) == U16 && Capacity(8) == U64;
  }

  lemma FieldRead(m: seq<byte>, a: nat, f: Field)
    requires a + HDR <= |m|
    ensures f.Get(HeaderAt(m, a)) == LittleEndian(m[a + f.Ofs()..a + f.Ofs() + f.Width()])
  {
    SliceOfSlice(m, a, a + HDR, 0, 2);
    SliceOfSlice(m, a, a + HDR, 2, 4);
    SliceOfSlice(m, a, a + HDR, 4, 12);
  }

  lemma FieldBound(m: seq<byte>, a: nat, f: Field)
    requires a + HDR <= |m|
    ensures f.Get(HeaderAt(m, a)) < f.Limit()
  {
    FieldRead(m, a, f);
    CapacityOfFields(f);
    LittleEndianBound(m[a + f.Ofs()..a + f.Ofs() + f.Width()]);
  }

  lemma MagicBytes(s: seq<byte>)
    requires |s| == 8
    ensures LittleEndian(s) == MAGIC <==> s == [0xFE, 0xCA, 0xBE, 0xBA, 0xEF, 0xBE, 0xAD, 0xDE]
  {
    MagicValue();
    LittleEndianInjective(s, [0xFE, 0xCA, 0xBE, 0xBA, 0xEF, 0xBE, 0xAD, 0xDE]);
  }

  lemma MagicValue()
    ensures LittleEndian([0xFE, 0xCA, 0xBE, 0xBA, 0xEF, 0xBE, 0xAD, 0xDE]) == 0xDEADBEEFBABECAFE
  {
    assert LittleEndian([0xDE]) == 0xDE;
    assert [0xAD, 0xDE][1..] == [0xDE];
    assert LittleEndian([0xAD, 0xDE]) == 0xDEAD;
    assert [0xBE, 0xAD, 0xDE][1..] == [0xAD, 0xDE];
    assert LittleEndian([0xBE, 0xAD, 0xDE]) == 0xDEADBE;
    assert [0xEF, 0xBE, 0xAD, 0xDE][1..] == [0xBE, 0xAD, 0xDE];
    assert LittleEndian([0xEF, 0xBE, 0xAD, 0xDE]) == 0xDEADBEEF;
    assert [0xBA, 0xEF, 0xBE, 0xAD, 0xDE][1..] == [0xEF, 0xBE, 0xAD, 0xDE];
    assert LittleEndian([0xBA, 0xEF, 0xBE, 0xAD, 0xDE]) == 0xDEADBEEFBA;
    assert [0xBE, 0xBA, 0xEF, 0xBE, 0xAD, 0xDE][1..] == [0xBA, 0xEF, 0xBE, 0xAD, 0xDE];
    assert LittleEndian([0xBE, 0xBA, 0xEF, 0xBE, 0xAD, 0xDE]) == 0xDEADBEEFBABE;
    assert [0xCA, 0xBE, 0xBA, 0xEF, 0xBE, 0xAD, 0xDE][1..] == [0xBE, 0xBA, 0xEF, 0xBE, 0xAD, 0xDE];
    assert LittleEndian([0xCA, 0xBE, 0xBA, 0xEF, 0xBE, 0xAD, 0xDE]) == 0xDEADBEEFBABECA;
    assert [0xFE, 0xCA, 0xBE, 0xBA, 0xEF, 0xBE, 0xAD, 0xDE][1..] == [0xCA, 0xBE, 0xBA, 0xEF, 0xBE, 0xAD, 0xDE];
  }

  /** Where the fields of a header lie. */
  lemma HeaderFields(m: seq<byte>, a: nat)
    requires a + 12 <= |m|
    ensures HeaderAt(m, a).prev == m[a] as int + 256 * m[a + 1] as int
    ensures HeaderAt(m, a).sz == m[a + 2] as int + 256 * m[a + 3] as int
    ensures HeaderAt(m, a).lom == LittleEndian(m[a + 4..a + 12])
  {
    FieldRead(m, a, PrevSz);
    FieldRead(m, a, Sz);
    FieldRead(m, a, Lom);
    TwoBytes(m[a..a + 2]);
    TwoBytes(m[a + 2..a + 4]);
  }

  /** Storing one field of one header changes that field of that header and nothing else. */
  lemma FieldWritten(m: seq<byte>, a: nat, f: Field, v: nat, g: Field)
    requires a + HDR <= |m| && v < f.Limit()
    ensures g.Get(HeaderAt(Store(m, a + f.Ofs(), f.Width(), v), a)) == if g == f then v else g.Get(HeaderAt(m, a))
  {
    var m' := Store(m, a + f.Ofs(), f.Width(), v);
    FieldRead(m, a, g);
    FieldRead(m', a, g);
    if g == f {
      CapacityOfFields(f);
      LoadStored(m, a + f.Ofs(), f.Width(), v);
    } else {
      SameSlice(m', m, a + g.Ofs(), a + g.Ofs() + g.Width());
    }
  }

  lemma HeaderWritten(m: seq<byte>, hdrs: map<nat, Hdr>, a: nat, f: Field, v: nat)
    requires Holds(m, hdrs) && a in hdrs && HeldAt(m, hdrs, a) && v < f.Limit()
    ensures Holds(Store(m, a + f.Ofs(), f.Width(), v), hdrs[a := f.Set(hdrs[a], v)])
  {
    var m' := Store(m, a + f.Ofs(), f.Width(), v);
    FieldWritten(m, a, f, v, PrevSz);
    FieldWritten(m, a, f, v, Sz);
    FieldWritten(m, a, f, v, Lom);
    var hdrs' := hdrs[a := f.Set(hdrs[a], v)];
    forall b | b in hdrs' ensures HeldAt(m', hdrs', b) {
      assert HeldAt(m, hdrs, b);
      if b != a { SameSlice(m', m, b, b + HDR); }
    }
  }
}
