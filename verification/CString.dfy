/** `memmove`, which always copies forward, and `memcmp`, which compares a word at a time. */
module CString {
  import opened Bytes

  // ----- memmove

  /** The copy that section 7.21.2.2 of C99 asks for: as if through a temporary. */
  ghost function Copied(m: seq<byte>, to: nat, from: nat, n: nat): (r: seq<byte>)
    requires to + n <= |m| && from + n <= |m|
    ensures |r| == |m|
  {
    m[..to] + m[from..from + n] + m[to + n..]
  }

  /** `i` modulo `d`, by repeated subtraction. */
  ghost function Phase(i: nat, d: nat): (r: nat)
    requires 0 < d
    ensures r < d && r <= i
  {
    if i < d then i else Phase(i - d, d)
  }

  /** Where the byte that a forward copy leaves at `x` was before: copying up into itself repeats a pattern. */
  ghost function Origin(to: nat, from: nat, x: nat): nat
    requires to <= x
  {
    if from < to then from + Phase(x - to, to - from) else from + (x - to)
  }

  ghost function ForwardCopied(m: seq<byte>, to: nat, from: nat, n: nat): (r: seq<byte>)
    requires to + n <= |m| && from + n <= |m|
    ensures |r| == |m|
  {
    seq(|m|, x requires 0 <= x < |m| => if to <= x < to + n then m[Origin(to, from, x)] else m[x])
  }

  method MemMove(mem: array<byte>, to: nat, from: nat, n: nat)
    requires to + n <= mem.Length && from + n <= mem.Length
    modifies mem
    ensures mem[..] == ForwardCopied(old(mem[..]), to, from, n)
    ensures forall x :: 0 <= x < mem.Length && !(to <= x < to + n) ==> mem[x] == old(mem[x])
    ensures !Overlaps(to, from, n) ==> forall x :: to <= x < to + n ==> mem[x] == old(mem[from + (x - to)])
  {
    ghost var m := mem[..];
    if to == from || n == 0 {
      return;
    }
    for i := 0 to n
      invariant forall x :: 0 <= x < mem.Length && !(to <= x < to + i) ==> mem[x] == m[x]
      invariant forall x {:trigger mem[x]} :: to <= x < to + i ==> mem[x] == m[Origin(to, from, x)]
    {
      mem[to + i] := mem[from + i];
    }
  }

  ghost predicate Overlaps(to: nat, from: nat, n: nat) {
    from < to < from + n
  }

  lemma ForwardCopyCorrect(m: seq<byte>, to: nat, from: nat, n: nat)
    requires to + n <= |m| && from + n <= |m| && !Overlaps(to, from, n)
    ensures ForwardCopied(m, to, from, n) == Copied(m, to, from, n)
  {
    assert forall x :: to <= x < to + n ==> Origin(to, from, x) == from + (x - to);
  }

  /** A memory on which the forward copy goes wrong, wherever the target starts inside the source. */
  lemma ForwardCopyWrong(to: nat, from: nat, n: nat) returns (m: seq<byte>)
    requires Overlaps(to, from, n)
    ensures to + n <= |m| && ForwardCopied(m, to, from, n) != Copied(m, to, from, n)
  {
    var x := to + (to - from);
    m := seq(to + n, i => if i == from then 1 else 0);
    assert Origin(to, from, x) == from;
    assert ForwardCopied(m, to, from, n)[x] == 1 && Copied(m, to, from, n)[x] == m[to] == 0;
  }

  /** The forward copy is a `memmove` for every memory exactly when the target does not start inside the source. */
  lemma ForwardCopyIsMemmove(to: nat, from: nat, n: nat)
    ensures (forall m: seq<byte> :: to + n <= |m| && from + n <= |m| ==>
      ForwardCopied(m, to, from, n) == Copied(m, to, from, n))
      <==> !Overlaps(to, from, n)
  {
    if Overlaps(to, from, n) {
      var m := ForwardCopyWrong(to, from, n);
    } else {
      forall m: seq<byte> | to + n <= |m| && from + n <= |m|
        ensures ForwardCopied(m, to, from, n) == Copied(m, to, from, n)
      {
        ForwardCopyCorrect(m, to, from, n);
      }
    }
  }

  // ----- memcmp

  /** The sign and size `memcmp` reports: the difference at the first differing byte, 0 if there is none. */
  ghost function FirstDifference(a: seq<byte>, b: seq<byte>): (d: int)
    requires |a| == |b|
  {
    if a == [] then 0 else if a[0] != b[0] then a[0] as int - b[0] as int else FirstDifference(a[1..], b[1..])
  }

  lemma {:induction false} SkipEqual(a: seq<byte>, b: seq<byte>, k: nat)
    requires |a| == |b| && k <= |a| && a[..k] == b[..k]
    ensures FirstDifference(a, b) == FirstDifference(a[k..], b[k..])
  {
    if k > 0 {
      assert a[0] == a[..k][0] && b[0] == b[..k][0];
      assert a[1..][..k - 1] == a[..k][1..] && b[1..][..k - 1] == b[..k][1..];
      SkipEqual(a[1..], b[1..], k - 1);
      assert a[1..][k - 1..] == a[k..] && b[1..][k - 1..] == b[k..];
    } else {
      assert a[0..] == a && b[0..] == b;
    }
  }

  /** 0 exactly when all bytes agree, otherwise the difference at the first byte that does not. */
  lemma {:induction false} FirstDifferenceMeans(a: seq<byte>, b: seq<byte>)
    requires |a| == |b|
    ensures FirstDifference(a, b) == 0 <==> a == b
    ensures a != b ==> exists i ::
      0 <= i < |a| && a[..i] == b[..i] && a[i] != b[i] && FirstDifference(a, b) == a[i] as int - b[i] as int
  {
    if a != [] {
      assert a == [a[0]] + a[1..] && b == [b[0]] + b[1..];
      FirstDifferenceMeans(a[1..], b[1..]);
      if a[0] != b[0] {
        assert a[..0] == b[..0];
      } else if a != b {
        var i :| 0 <= i < |a[1..]| && a[1..][..i] == b[1..][..i] && a[1..][i] != b[1..][i] &&
                 FirstDifference(a[1..], b[1..]) == a[1..][i] as int - b[1..][i] as int;
        assert a[..i + 1] == [a[0]] + a[1..][..i] && b[..i + 1] == [b[0]] + b[1..][..i];
      }
    }
  }

  lemma WordStep(a: seq<byte>, b: seq<byte>, at: nat, w: nat)
    requires |a| == |b| && at + w <= |a| && LittleEndian(a[at..at + w]) == LittleEndian(b[at..at + w])
    ensures FirstDifference(a[at..], b[at..]) == FirstDifference(a[at + w..], b[at + w..])
  {
    LittleEndianInjective(a[at..at + w], b[at..at + w]);
    TailSplits(a, at, w);
    TailSplits(b, at, w);
    SkipEqual(a[at..], b[at..], w);
  }

  lemma ByteStep(a: seq<byte>, b: seq<byte>, at: nat)
    requires |a| == |b| && at < |a|
    ensures FirstDifference(a[at..], b[at..]) ==
      if a[at] != b[at] then a[at] as int - b[at] as int else FirstDifference(a[at + 1..], b[at + 1..])
  {
    TailSplits(a, at, 1);
    TailSplits(b, at, 1);
  }

  lemma NoDifference(a: seq<byte>, b: seq<byte>)
    requires |a| == |b|
    ensures FirstDifference(a[|a|..], b[|b|..]) == 0 && a[0..] == a && b[0..] == b
  {
  }

  /** `memcmp` for words of `w` bytes; both operands are exactly `n` bytes long, so no read goes further. */
  method MemCmp(a: seq<byte>, b: seq<byte>, w: nat) returns (d: int)
    requires |a| == |b| && 1 <= w
    ensures d == FirstDifference(a, b)
  {
    hide FirstDifference, LittleEndian;
    NoDifference(a, b);
    var n := |a|;
    if n == 0 {
      return 0;
    }
    var at := 0;
    while n > w && LittleEndian(a[at..at + w]) == LittleEndian(b[at..at + w])
      invariant at + n == |a| && 0 < n
      invariant FirstDifference(a, b) == FirstDifference(a[at..], b[at..])
    {
      WordStep(a, b, at, w);
      at, n := at + w, n - w;
    }
    ghost var rest := n;
    var i := 0;
    while i < w && n > 0
      invariant i <= w && i + n == rest && at + i <= |a|
      invariant forall x :: at <= x < at + i ==> a[x] == b[x]
      invariant FirstDifference(a, b) == FirstDifference(a[at + i..], b[at + i..])
      decreases n
    {
      ByteStep(a, b, at + i);
      if a[at + i] != b[at + i] {
        return a[at + i] as int - b[at + i] as int;
      }
      i, n := i + 1, n - 1;
    }
    if i == w {
      SameSlice(a, b, at, at + w);
    }
    return 0;
  }
}
