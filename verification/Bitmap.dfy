/**
  Bitmaps in memory.  Memory is its bits in little-endian order: bit `j` of the byte at address `p` is bit `8 * p + j`,
  and the 64-bit word at `p` is the bits from `8 * p` on.
 */
module Bitmaps {
  import opened Words

  /** Bits `lo .. hi` inverted. */
  ghost function Flipped(m: seq<bool>, lo: nat, hi: nat): (r: seq<bool>)
    ensures |r| == |m|
  {
    seq(|m|, i requires 0 <= i < |m| => if lo <= i < hi then !m[i] else m[i])
  }

  lemma FlippedAt(m: seq<bool>, lo: nat, hi: nat, x: nat)
    requires x < |m|
    ensures |Flipped(m, lo, hi)| == |m| && Flipped(m, lo, hi)[x] == (m[x] != (lo <= x < hi))
  {
  }

  lemma FlippedTwice(m: seq<bool>, lo: nat, hi: nat)
    ensures Flipped(Flipped(m, lo, hi), lo, hi) == m
  {
  }

  lemma FlippedJoin(m: seq<bool>, lo: nat, mid: nat, hi: nat)
    requires lo <= mid <= hi
    ensures Flipped(Flipped(m, lo, mid), mid, hi) == Flipped(m, lo, hi)
  {
  }

  /** The `n` bits from `i` on all equal `value`. */
  ghost predicate IsRun(b: seq<bool>, i: nat, n: nat, value: bool) {
    i + n <= |b| && forall j {:trigger b[j]} :: i <= j < i + n ==> b[j] == value
  }

  /**
    `(value & 1) << ofs` as an `int`: from bit 31 on the shift of a set value is undefined and may give any word,
    here `junk`.
   */
  function Shifted(value: bool, ofs: nat, junk: Word): Word {
    if !value then Zero() else if ofs < 31 then Shl(One(), ofs) else junk
  }

  function SetWord(w: Word, ofs: nat, value: bool, junk: Word): Word {
    Or(And(w, Not(Shl(One(), ofs))), Shifted(value, ofs, junk))
  }

  /**
    `bitmap_set` can be relied on to change its own bit and no other exactly when it clears or the bit is one of the
    low 31.
   */
  lemma SetExact(ofs: nat, value: bool)
    requires ofs < 64
    ensures (forall w: Word, junk: Word :: SetWord(w, ofs, value, junk) == w[ofs := value]) <==> !value || ofs < 31
  {
    if value && ofs >= 31 {
      assert SetWord(Zero(), ofs, value, Zero())[ofs] == false;
    } else {
      forall w: Word, junk: Word
        ensures SetWord(w, ofs, value, junk) == w[ofs := value]
      {
        SetWordIs(w, ofs, value, junk);
      }
    }
  }

  lemma SetWordIs(w: Word, ofs: nat, value: bool, junk: Word)
    requires ofs < 64 && (!value || ofs < 31)
    ensures SetWord(w, ofs, value, junk) == w[ofs := value]
  {
  }

  lemma WordInside(k: nat, n: nat)
    requires k < n
    ensures 64 * (k / 64) + 64 <= 64 * ((n + 63) / 64)
  {
  }

  lemma FlippedInside(m: seq<bool>, lo: nat, n: nat, a: nat, b: nat)
    requires lo + n <= |m| && b <= n
    ensures Flipped(m, lo + a, lo + b)[lo..lo + n] == Flipped(m[lo..lo + n], a, b)
  {
  }

  lemma OneBit(m: seq<bool>, m': seq<bool>, base: nat, w: Word, w': Word, ofs: nat, value: bool)
    requires base + 64 <= |m| == |m'| && ofs < 64 && w' == w[ofs := value]
    requires forall k :: 0 <= k < 64 ==> w[k] == m[base + k] && w'[k] == m'[base + k]
    requires forall x :: 0 <= x < |m| && !(base <= x < base + 64) ==> m'[x] == m[x]
    ensures m' == m[base + ofs := value]
  {
    forall x | 0 <= x < |m| ensures m'[x] == m[base + ofs := value][x] {
      if base <= x < base + 64 { assert w'[x - base] == m'[base + (x - base)] && w[x - base] == m[base + (x - base)]; }
    }
  }

  class Bitmap {
    const mem: array<bool>
    const buf: nat
    var size: nat

    constructor (memory: array<bool>, address: nat)
      ensures mem == memory && buf == address && size == 0
    {
      mem, buf, size := memory, address, 0;
    }

    /** The words that hold the bits lie in memory; the last one may reach past the bitmap's own bytes. */
    ghost predicate Valid()
      reads this
    {
      8 * buf + 64 * ((size + 63) / 64) <= mem.Length
    }

    /** The bitmap's own bits. */
    ghost function Bits(): (b: seq<bool>)
      requires Valid()
      reads this, mem
      ensures |b| == size
    {
      mem[..][8 * buf..8 * buf + size]
    }

    /** No bit of memory outside the bitmap differs. */
    ghost predicate OnlyOwnBits(m: seq<bool>, m': seq<bool>)
      reads this
    {
      |m'| == |m| && forall x :: 0 <= x < |m| && !(8 * buf <= x < 8 * buf + size) ==> m'[x] == m[x]
    }

    /** A bit of memory that is not the bitmap's. */
    ghost predicate Foreign(x: int)
      reads this
    {
      0 <= x < mem.Length && !(8 * buf <= x < 8 * buf + size)
    }

    function LoadWord(i: nat): (w: Word)
      requires 8 * buf + 64 * i + 64 <= mem.Length
      reads mem
      ensures forall k :: 0 <= k < 64 ==> w[k] == mem[8 * buf + 64 * i + k]
    {
      mem[8 * buf + 64 * i..8 * buf + 64 * i + 64]
    }

    method StoreWord(i: nat, w: Word)
      requires 8 * buf + 64 * i + 64 <= mem.Length
      modifies mem
      ensures forall x :: 0 <= x < mem.Length ==>
        mem[x] == if 8 * buf + 64 * i <= x < 8 * buf + 64 * i + 64 then w[x - (8 * buf + 64 * i)] else old(mem[x])
      ensures LoadWord(i) == w
    {
      var base := 8 * buf + 64 * i;
      for k := 0 to 64
        invariant forall x :: 0 <= x < mem.Length ==>
          mem[x] == if base <= x < base + k then w[x - base] else old(mem[x])
      {
        mem[base + k] := w[k];
      }
    }

    /** `bmp_arr[i] ^= mask` */
    method XorWord(i: nat, mask: Word, ghost lo: nat, ghost hi: nat)
      requires 8 * buf + 64 * i + 64 <= mem.Length && lo <= hi <= 64
      requires forall k :: 0 <= k < 64 ==> (mask[k] <==> lo <= k < hi)
      modifies mem
      ensures mem[..] == Flipped(old(mem[..]), 8 * buf + 64 * i + lo, 8 * buf + 64 * i + hi)
    {
      var w := LoadWord(i);
      StoreWord(i, Xor(w, mask));
    }

    /** `bitmap_flip`: inverts bits `a` to `b` inclusive and no other bit of memory. */
    method Flip(a: nat, b: nat)
      requires a <= b <= size && 8 * buf + 64 * (b / 64) + 64 <= mem.Length
      modifies mem
      ensures mem[..] == Flipped(old(mem[..]), 8 * buf + a, 8 * buf + b + 1)
    {
      hide Dec, Flipped;
      ghost var m, base := mem[..], 8 * buf;
      var startWord, endWord := a / 64, b / 64;
      var startOfs, endOfs := a % 64, b % 64;
      if startWord == endWord {
        var numBits := b - a + 1;
        var mask := if numBits == 64 then Ones() else Shl(Dec(Shl(One(), numBits)), startOfs);
        forall k | 0 <= k < 64 ensures mask[k] <==> startOfs <= k < endOfs + 1 {
          if numBits != 64 { MaskBits(numBits, startOfs, k); }
        }
        XorWord(startWord, mask, startOfs, endOfs + 1);
        return;
      }
      XorWord(startWord, Shl(Ones(), startOfs), startOfs, 64);
      for i := startWord + 1 to endWord
        invariant mem[..] == Flipped(m, base + a, base + 64 * i)
      {
        XorWord(i, Ones(), 0, 64);
        FlippedJoin(m, base + a, base + 64 * i, base + 64 * (i + 1));
      }
      var mask := if endOfs == 63 then Ones() else Dec(Shl(One(), endOfs + 1));
      forall k | 0 <= k < 64 ensures mask[k] <==> k < endOfs + 1 {
        if endOfs != 63 { MaskBits(endOfs + 1, 0, k); }
      }
      XorWord(endWord, mask, 0, endOfs + 1);
      FlippedJoin(m, base + a, base + 64 * endWord, base + b + 1);
    }

    /** The same, seen from the bitmap. */
    method FlipOwn(a: nat, b: nat)
      requires Valid() && a <= b < size
      modifies mem
      ensures Bits() == Flipped(old(Bits()), a, b + 1) && OnlyOwnBits(old(mem[..]), mem[..])
    {
      ghost var m := mem[..];
      WordInside(b, size);
      Flip(a, b);
      BytesHold(size);
      FlippedInside(m, 8 * buf, size, a, b + 1);
    }

    /** `bitmap_get` */
    method Get(k: nat) returns (v: bool)
      requires Valid() && k < size
      ensures v == mem[8 * buf + k] == Bits()[k]
    {
      var w := And(LoadWord(k / 64), Shl(One(), k % 64));
      v := w != Zero();
      if v {
        assert exists i :: 0 <= i < 64 && w[i] != Zero()[i];
      } else {
        assert w[k % 64] == Zero()[k % 64];
      }
    }

    /** `bitmap_set` */
    method Set(k: nat, value: bool, junk: Word)
      requires Valid() && k < size
      modifies mem
      ensures forall x :: 0 <= x < mem.Length && !(8 * buf + 64 * (k / 64) <= x < 8 * buf + 64 * (k / 64) + 64) ==>
        mem[x] == old(mem[x])
      ensures LoadWord(k / 64) == SetWord(old(LoadWord(k / 64)), k % 64, value, junk)
      ensures !value || k % 64 < 31 ==> mem[..] == old(mem[..])[8 * buf + k := value]
    {
      hide And, Or, Not, Shl, One, Shifted;
      var i, ofs := k / 64, k % 64;
      ghost var w := LoadWord(i);
      StoreWord(i, And(LoadWord(i), Not(Shl(One(), ofs))));
      StoreWord(i, Or(LoadWord(i), Shifted(value, ofs, junk)));
      assert LoadWord(i) == SetWord(w, ofs, value, junk);
      if !value || ofs < 31 {
        SetWordIs(w, ofs, value, junk);
        OneBit(old(mem[..]), mem[..], 8 * buf + 64 * i, w, LoadWord(i), ofs, value);
      }
    }

    /**
      `bitmap_test`: the least position of a run of `n` bits equal to `value` within `[start, end]`, -1 if there is
      none.
     */
    method Test(value: bool, start: nat, end: nat, n: nat) returns (r: int)
      requires Valid() && start <= end < size && start + n - 1 <= end && n > 0
      ensures -1 <= r
      ensures r == -1 ==> forall i :: start <= i && i + n <= end + 1 ==> !IsRun(Bits(), i, n, value)
      ensures r != -1 ==> start <= r && r + n <= end + 1 && IsRun(Bits(), r, n, value)
      ensures r != -1 ==> forall i :: start <= i < r ==> !IsRun(Bits(), i, n, value)
    {
      var count, candidate, i := 0, start, start;
      while i <= end && count < n
        invariant start <= i <= end + 1 && count <= n && count <= i - start
        invariant count > 0 ==> candidate == i - count
        invariant forall j {:trigger Bits()[j]} :: i - count <= j < i ==> Bits()[j] == value
        invariant forall s :: start <= s < i - count ==> !IsRun(Bits(), s, n, value)
      {
        var v := Get(i);
        if v == value {
          if count == 0 {
            candidate := i;
          }
          count := count + 1;
        } else {
          count := 0;
        }
        i := i + 1;
      }
      r := if count == n then candidate else -1;
    }

    /** `bitmap_test_and_flip`: takes the least run, or changes nothing. */
    method TestAndFlip(value: bool, start: nat, end: nat, n: nat) returns (r: int)
      requires Valid() && start <= end < size && start + n - 1 <= end && n > 0
      modifies mem
      ensures -1 <= r
      ensures r == -1 ==> mem[..] == old(mem[..]) && forall i :: start <= i && i + n <= end + 1 ==>
        !IsRun(old(Bits()), i, n, value)
      ensures r != -1 ==> start <= r && r + n <= end + 1 && IsRun(old(Bits()), r, n, value)
      ensures r != -1 ==> forall i :: start <= i < r ==> !IsRun(old(Bits()), i, n, value)
      ensures r != -1 ==> mem[..] == Flipped(old(mem[..]), 8 * buf + r, 8 * buf + r + n)
    {
      ghost var b := Bits();
      r := Test(value, start, end, n);
      assert Bits() == b;
      if r != -1 {
        Flip(r, r + n - 1);
      }
    }

    /** `bitmap_init_buf`: `memset(buf, 0, n / 8)` clears whole bytes only. */
    method InitBuf(n: nat)
      requires 8 * buf + n <= mem.Length
      modifies this, mem
      ensures size == n && mem[..] == Cleared(old(mem[..]), 8 * buf, 8 * (n / 8))
    {
      size := n;
      var hi := 8 * (n / 8);
      for k := 0 to hi
        invariant size == n && mem[..] == Cleared(old(mem[..]), 8 * buf, k)
      {
        mem[8 * buf + k] := false;
      }
    }
  }

  /** `n` bits from `lo` on cleared. */
  ghost function Cleared(m: seq<bool>, lo: nat, n: nat): (r: seq<bool>)
    ensures |r| == |m|
  {
    seq(|m|, i requires 0 <= i < |m| => if lo <= i < lo + n then false else m[i])
  }

  lemma ClearedAt(m: seq<bool>, lo: nat, n: nat, x: nat)
    requires x < |m|
    ensures |Cleared(m, lo, n)| == |m| && Cleared(m, lo, n)[x] == (m[x] && !(lo <= x < lo + n))
  {
  }

  ghost predicate AllClear(b: seq<bool>) {
    forall i :: 0 <= i < |b| ==> !b[i]
  }

  /**
    After `bitmap_init_buf` all `n` bits are clear, whatever memory held before, exactly when `n` is a multiple of 8.
   */
  lemma InitClearsAll(lo: nat, n: nat)
    ensures (forall m: seq<bool> :: lo + n <= |m| ==> AllClear(Cleared(m, lo, 8 * (n / 8))[lo..lo + n])) <==> n % 8 == 0
  {
    if n % 8 != 0 {
      var m := seq(lo + n, i => true);
      assert Cleared(m, lo, 8 * (n / 8))[lo..lo + n][n - 1];
      assert !AllClear(Cleared(m, lo, 8 * (n / 8))[lo..lo + n]);
    }
  }

  // ----- Two bitmaps packed back to back

  /** One bitmap starts at the first byte past the bits of the other, inside the other's last word. */
  ghost predicate Packed(one: Bitmap, other: Bitmap)
    reads one, other
  {
    && one.Valid() && other.Valid() && one.mem == other.mem
    && (other.buf == one.buf + (one.size + 7) / 8 || one.buf == other.buf + (other.size + 7) / 8)
  }

  /** So neither has a bit of the other. */
  lemma PackedApart(one: Bitmap, other: Bitmap)
    requires Packed(one, other)
    ensures 8 * one.buf + one.size <= 8 * other.buf || 8 * other.buf + other.size <= 8 * one.buf
    ensures 8 * one.buf + one.size <= one.mem.Length && 8 * other.buf + other.size <= other.mem.Length
  {
    BytesHold(one.size);
    BytesHold(other.size);
  }

  lemma BytesHold(n: nat)
    ensures n <= 8 * ((n + 7) / 8) && n <= 64 * ((n + 63) / 64)
  {
  }

  /** Flipping in one of them inverts the bits asked for and leaves the other bitmap alone. */
  method PackedFlip(one: Bitmap, other: Bitmap, a: nat, b: nat)
    requires Packed(one, other) && a <= b < one.size
    modifies one.mem
    ensures one.Bits() == Flipped(old(one.Bits()), a, b + 1) && other.Bits() == old(other.Bits())
  {
    hide Flipped;
    PackedApart(one, other);
    hide Packed;
    one.FlipOwn(a, b);
  }

  /** So does clearing a bit. */
  method PackedClear(one: Bitmap, other: Bitmap, k: nat, junk: Word)
    requires Packed(one, other) && k < one.size
    modifies one.mem
    ensures one.Bits() == old(one.Bits())[k := false] && other.Bits() == old(other.Bits())
  {
    PackedApart(one, other);
    one.Set(k, false, junk);
  }
}
