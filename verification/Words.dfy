/** 64-bit machine words as their bits, least significant first, with the operators the bitmap code uses. */
module Words {

  const BITS: nat := 64

  type Word = w: seq<bool> | |w| == 64 witness seq(64, i => false)

  function Zero(): Word { seq(BITS, i => false) }

  function Ones(): Word { seq(BITS, i => true) }

  function One(): Word { seq(BITS, i => i == 0) }

  /** `w << n`; bits shifted past the top are lost. */
  function Shl(w: Word, n: nat): Word {
    seq(BITS, i requires 0 <= i < BITS => i >= n && w[i - n])
  }

  function Xor(v: Word, w: Word): Word { seq(BITS, i requires 0 <= i < BITS => v[i] != w[i]) }

  function And(v: Word, w: Word): Word { seq(BITS, i requires 0 <= i < BITS => v[i] && w[i]) }

  function Or(v: Word, w: Word): Word { seq(BITS, i requires 0 <= i < BITS => v[i] || w[i]) }

  function Not(w: Word): Word { seq(BITS, i requires 0 <= i < BITS => !w[i]) }

  /** How many low bits are clear below the lowest set one. */
  function TrailingZeros(s: seq<bool>): (n: nat)
    ensures n <= |s| && (forall i :: 0 <= i < n ==> !s[i]) && (n < |s| ==> s[n])
  {
    if s == [] || s[0] then 0 else 1 + TrailingZeros(s[1..])
  }

  /** `w - 1`: the borrow sets the clear low bits and stops at the lowest set one. */
  function Dec(w: Word): Word {
    var n := TrailingZeros(w);
    seq(BITS, i requires 0 <= i < BITS => if i < n then true else if i == n then false else w[i])
  }

  /** The number a sequence of bits stands for. */
  ghost function Value(s: seq<bool>): nat {
    if s == [] then 0 else (if s[0] then 1 else 0) + 2 * Value(s[1..])
  }

  /** `Dec` subtracts one. */
  lemma {:induction false} BorrowValue(s: seq<bool>, t: seq<bool>)
    requires |s| == |t| && TrailingZeros(s) < |s|
    requires forall i :: 0 <= i < |s| ==>
      t[i] == (if i < TrailingZeros(s) then true else if i == TrailingZeros(s) then false else s[i])
    ensures Value(t) + 1 == Value(s)
  {
    if s[0] {
      assert s[1..] == t[1..];
    } else {
      BorrowValue(s[1..], t[1..]);
    }
  }

  lemma DecValue(w: Word)
    requires w != Zero()
    ensures Value(Dec(w)) + 1 == Value(w)
  {
    assert exists i :: 0 <= i < BITS && w[i] != Zero()[i];
    BorrowValue(w, Dec(w));
  }

  /** `((1ULL << n) - 1) << s` has exactly the bits `s .. s + n` set, for `n < 64`. */
  lemma MaskBits(n: nat, s: nat, k: nat)
    requires n < BITS && s + n <= BITS && k < BITS
    ensures Shl(Dec(Shl(One(), n)), s)[k] <==> s <= k < s + n
  {
    var p := Shl(One(), n);
    assert p[n];
    assert TrailingZeros(p) == n;
  }
}
