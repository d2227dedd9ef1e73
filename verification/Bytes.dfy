/** Little-endian integers stored in bytes, and the way a store into memory frames a later load. */
module Bytes {

  type byte = b: int | 0 <= b < 256

  lemma SliceOfSlice(s: seq<byte>, a: nat, b: nat, c: nat, d: nat)
    requires a <= b <= |s| && c <= d <= b - a
    ensures s[a..b][c..d] == s[a + c..a + d]
  {
    forall i | 0 <= i < d - c ensures s[a..b][c..d][i] == s[a + c..a + d][i] {
      assert s[a..b][c..d][i] == s[a..b][c + i] == s[a + (c + i)];
    }
  }

  lemma TailSplits(s: seq<byte>, a: nat, w: nat)
    requires a + w <= |s|
    ensures s[a..][..w] == s[a..a + w] && s[a..][w..] == s[a + w..]
  {
    forall i | 0 <= i < w ensures s[a..][..w][i] == s[a..a + w][i] { assert s[a..][i] == s[a + i]; }
    forall i | 0 <= i < |s| - a - w ensures s[a..][w..][i] == s[a + w..][i] { assert s[a..][w + i] == s[a + (w + i)]; }
  }

  lemma SameSlice(s: seq<byte>, t: seq<byte>, lo: nat, hi: nat)
    requires lo <= hi <= |s| && hi <= |t| && forall x :: lo <= x < hi ==> s[x] == t[x]
    ensures s[lo..hi] == t[lo..hi]
  {
  }

  /** The value of a little-endian field. */
  function LittleEndian(s: seq<byte>): nat {
    if s == [] then 0 else s[0] + 256 * LittleEndian(s[1..])
  }

  /** The bytes that replace the field `was` when `v` is stored into it. */
  function Encode(v: nat, was: seq<byte>): (s: seq<byte>)
    ensures |s| == |was|
  {
    if was == [] then [] else [v % 256] + Encode(v / 256, was[1..])
  }

  /** Memory after `v` has been stored into the `k` bytes at `a`. */
  function Store(m: seq<byte>, a: nat, k: nat, v: nat): (m': seq<byte>)
    requires a + k <= |m|
    ensures |m'| == |m|
    ensures forall x :: 0 <= x < |m| && !(a <= x < a + k) ==> m'[x] == m[x]
  {
    m[..a] + Encode(v, m[a..a + k]) + m[a + k..]
  }

  function Capacity(k: nat): (c: nat)
    ensures c > 0
  {
    if k == 0 then 1 else 256 * Capacity(k - 1)
  }

  lemma {:induction false} DecodeEncode(v: nat, was: seq<byte>)
    requires v < Capacity(|was|)
    ensures LittleEndian(Encode(v, was)) == v
  {
    if was != [] {
      DecodeEncode(v / 256, was[1..]);
      assert Encode(v, was)[1..] == Encode(v / 256, was[1..]);
    }
  }

  lemma {:induction false} LittleEndianBound(s: seq<byte>)
    ensures LittleEndian(s) < Capacity(|s|)
  {
    if s != [] {
      LittleEndianBound(s[1..]);
    }
  }

  lemma TwoBytes(s: seq<byte>)
    requires |s| == 2
    ensures LittleEndian(s) == s[0] as int + 256 * s[1] as int
  {
    assert s[1..][1..] == [] && LittleEndian(s[1..]) == s[1];
  }

  /** Two fields of one width hold the same value exactly when they hold the same bytes. */
  lemma {:induction false} LittleEndianInjective(s: seq<byte>, t: seq<byte>)
    requires |s| == |t|
    ensures LittleEndian(s) == LittleEndian(t) <==> s == t
  {
    if s != [] && LittleEndian(s) == LittleEndian(t) {
      assert s[0] == t[0] && LittleEndian(s[1..]) == LittleEndian(t[1..]);
      LittleEndianInjective(s[1..], t[1..]);
      assert s == [s[0]] + s[1..] && t == [t[0]] + t[1..];
    }
  }

  /** A load from the stored field returns the stored value. */
  lemma LoadStored(m: seq<byte>, a: nat, k: nat, v: nat)
    requires a + k <= |m| && v < Capacity(k)
    ensures LittleEndian(Store(m, a, k, v)[a..a + k]) == v
  {
    assert Store(m, a, k, v)[a..a + k] == Encode(v, m[a..a + k]);
    DecodeEncode(v, m[a..a + k]);
  }
}
