/** Whole runs on memory: what a client that keeps its pointers to itself can count on. */
module HeapClient {
  import opened Bytes
  import opened HeapLayout
  import opened HeapMemory
  import opened HeapSafety
  import opened HeapTheorems
  import opened HeapHeaders
  import opened HeapContents
  import opened HeapRuns
  import opened Wdmalloc

  /** The pointer a call is about, 0 if none. */
  ghost function Subject(c: Call): nat {
    if c.DoMalloc? then 0 else c.p
  }

  ghost function Named(cs: seq<Call>): set<nat> {
    if cs == [] then {} else {Subject(cs[0])} + Named(cs[1..])
  }

  /** No call moves, resizes or frees a block it is not about. */
  lemma StepKeepsBlock(L: Layout, c: Call, u: nat)
    requires Sound(L) && Allowed(L, c) && IsUsed(L.blocks, u) && u + HDR != Subject(c)
    ensures IsUsed(Step(L, c).blocks, u) && Step(L, c).blocks.tags[u].size == L.blocks.tags[u].size
  {
    hide Malloc, Free, Shrink, Grow, Choose;
    match c
    case DoMalloc(n) => MallocUsed(L, n, u);
    case DoFree(p) => if Live(L, p) { FreeUsed(L, p, u); } else { FreeOutside(L, p); }
    case DoRealloc(p, n) =>
      MallocUsed(L, n, u);
      if p != 0 {
        FreeUsed(L, p, u);
        if n < L.blocks.tags[p - HDR].size { ShrinkUsed(L, p - HDR, n, u); }
        GrowKeepsBlock(L, p - HDR, n, u);
      }
    case DoStore(p, i, b) =>
  }

  lemma GrowKeepsBlock(L: Layout, a: nat, n: nat, u: nat)
    requires Sound(L) && IsUsed(L.blocks, a) && IsUsed(L.blocks, u) && u != a
    ensures IsUsed(Grow(L, a, n).0.blocks, u) && Grow(L, a, n).0.blocks.tags[u].size == L.blocks.tags[u].size
  {
    hide Choose, Gather, Settle, Malloc, Free;
    var c := Choose(L.blocks, a, n);
    if c.Here? {
      ChosenTouch(L.blocks, a, n, c);
      GrowHereUsed(L, a, n, c, u);
    } else if Malloc(L, n).1 != 0 {
      MallocUsed(L, n, u);
      GrowElsewhereUsed(L, a, n, u);
    }
  }

  /** The blocks of `B0` that no pointer in `N` names are still live in `B`, with their size and their bytes. */
  ghost predicate Intact(B0: Blocks, m0: seq<byte>, B: Blocks, m: seq<byte>, N: set<nat>) {
    && |m| == |m0|
    && forall u: nat {:trigger IsUsed(B0, u)} :: IsUsed(B0, u) && u + HDR !in N ==>
        && IsUsed(B, u) && B.tags[u].size == B0.tags[u].size
        && forall x {:trigger m[x]} :: u + HDR <= x < Next(B0, u) && x < |m0| ==> m[x] == m0[x]
  }

  lemma IntactStep(L: Layout, c: Call, m: seq<byte>, m': seq<byte>, X: set<nat>)
    requires Sound(L) && Allowed(L, c) && KeepsPayloads(m, m', L.blocks, X)
    requires forall u :: u in X ==> u + HDR == Subject(c)
    ensures Intact(L.blocks, m, Step(L, c).blocks, m', {Subject(c)})
  {
    hide Step;
    forall u: nat | IsUsed(L.blocks, u) && u + HDR != Subject(c)
      ensures IsUsed(Step(L, c).blocks, u) && Step(L, c).blocks.tags[u].size == L.blocks.tags[u].size
    {
      StepKeepsBlock(L, c, u);
    }
  }

  lemma IntactTrans(B0: Blocks, m0: seq<byte>, B1: Blocks, m1: seq<byte>, B2: Blocks, m2: seq<byte>, N: set<nat>,
                    N': set<nat>)
    requires Intact(B0, m0, B1, m1, N) && Intact(B1, m1, B2, m2, N')
    ensures Intact(B0, m0, B2, m2, N + N')
  {
    forall u: nat | IsUsed(B0, u) && u + HDR !in N + N'
      ensures IsUsed(B2, u) && B2.tags[u].size == B0.tags[u].size
      ensures forall x {:trigger m2[x]} :: u + HDR <= x < Next(B0, u) && x < |m0| ==> m2[x] == m0[x]
    {
      assert IsUsed(B1, u) && Next(B1, u) == Next(B0, u);
      forall x | u + HDR <= x < Next(B0, u) && x < |m0| ensures m2[x] == m0[x] { assert m1[x] == m0[x]; }
    }
  }

  /** What a call that returns `r` does to the client's map of pointers to bytes; `L` is the layout before. */
  ghost predicate ClientStep(L: Layout, C: map<nat, seq<byte>>, c: Call, r: nat, C': map<nat, seq<byte>>) {
    match c
    case DoMalloc(n) => (r == 0 <==> NothingFits(L.blocks, n)) && if r == 0 then C' == C else Gains(C, C', r, n)
    case DoFree(p) => C' == if Live(L, p) && Frees(L, p) then C - {p - HDR} else C
    case DoRealloc(p, n) => Resized(L, C, p, n, r, C')
    case DoStore(p, i, b) =>
      HDR <= p && p - HDR in C && i < |C[p - HDR]| && C' == WithByte(C, p - HDR, i, b)
  }

  /** Make one call. */
  method Perform(h: Heap, c: Call) returns (r: nat)
    requires h.Valid() && Allowed(h.lay, c) && (c.DoMalloc? || c.DoRealloc? ==> c.n < U16)
    modifies h, h.ram
    ensures h.Valid() && h.lay == Step(old(h.lay), c)
    ensures Intact(old(h.lay).blocks, old(h.ram[..]), h.lay.blocks, h.ram[..], {Subject(c)})
    ensures ClientStep(old(h.lay), old(Owned(h)), c, r, Owned(h))
  {
    hide Intact, KeepsPayloads, Sound, Step, Contents, NothingFits, Gains, Resized;
    ghost var L, m := h.lay, h.ram[..];
    StepIs(L, c);
    r := 0;
    match c
    case DoMalloc(n) =>
      r := Allocate(h, n);
      IntactStep(L, c, m, h.ram[..], {});
    case DoFree(p) =>
      Release(h, p);
      IntactStep(L, c, m, h.ram[..], {});
    case DoRealloc(p, n) =>
      r := Resize(h, p, n);
      IntactStep(L, c, m, h.ram[..], if p == 0 then {} else {p - HDR});
    case DoStore(p, i, b) =>
      StoreByte(h, p, i, b);
      IntactStep(L, c, m, h.ram[..], {p - HDR});
  }

  lemma StepIs(L: Layout, c: Call)
    ensures Step(L, c) == match c
      case DoMalloc(n) => HeapLayout.Malloc(L, n).0
      case DoFree(p) => HeapLayout.Free(L, p)
      case DoRealloc(p, n) => HeapLayout.Realloc(L, p, n).0
      case DoStore(p, i, b) => L
  {
  }

  // ----- Whole runs

  /** The client's maps before and after each of the calls `cs` from layout `L` on, with their results `rs`. */
  ghost predicate ClientRun(L: Layout, Cs: seq<map<nat, seq<byte>>>, cs: seq<Call>, rs: seq<nat>) {
    && |Cs| == |cs| + 1 == |rs| + 1
    && forall j {:trigger rs[j]} :: 0 <= j < |cs| ==> ClientStep(Run(L, cs[..j]), Cs[j], cs[j], rs[j], Cs[j + 1])
  }

  lemma {:induction false} RunSnoc(L: Layout, cs: seq<Call>, c: Call)
    ensures Run(L, cs + [c]) == Step(Run(L, cs), c)
    decreases |cs|
  {
    hide Step;
    if cs == [] {
      assert cs + [c] == [c] && [c][1..] == [];
    } else {
      assert (cs + [c])[1..] == cs[1..] + [c];
      RunSnoc(Step(L, cs[0]), cs[1..], c);
    }
  }

  lemma {:induction false} AllowedAt(L: Layout, cs: seq<Call>, j: nat)
    requires AllowedRun(L, cs) && j < |cs|
    ensures Allowed(Run(L, cs[..j]), cs[j])
    decreases |cs|
  {
    hide Step, Allowed;
    if j > 0 {
      AllowedAt(Step(L, cs[0]), cs[1..], j - 1);
      assert cs[..j][1..] == cs[1..][..j - 1];
    }
  }

  lemma ClientRunSnoc(L: Layout, Cs: seq<map<nat, seq<byte>>>, cs: seq<Call>, rs: seq<nat>, c: Call, r: nat,
                      C: map<nat, seq<byte>>)
    requires ClientRun(L, Cs, cs, rs) && ClientStep(Run(L, cs), Cs[|cs|], c, r, C)
    ensures ClientRun(L, Cs + [C], cs + [c], rs + [r])
  {
    hide ClientStep;
    forall j | 0 <= j < |cs| + 1
      ensures ClientStep(Run(L, (cs + [c])[..j]), (Cs + [C])[j], (cs + [c])[j], (rs + [r])[j], (Cs + [C])[j + 1])
    {
      assert (cs + [c])[..j] == cs[..j];
      if j < |cs| { assert rs[j] == (rs + [r])[j]; } else { assert cs[..j] == cs; }
    }
  }

  /**
    Make any run of allowed calls.  Every call acts on the client's map of pointers to bytes as it should, and blocks
    the run never names keep their place, size and bytes throughout.
   */
  method Replay(h: Heap, cs: seq<Call>) returns (rs: seq<nat>, ghost Cs: seq<map<nat, seq<byte>>>)
    requires h.Valid() && AllowedRun(h.lay, cs) && forall c :: c in cs && (c.DoMalloc? || c.DoRealloc?) ==> c.n < U16
    modifies h, h.ram
    ensures h.Valid() && h.lay == Run(old(h.lay), cs)
    ensures ClientRun(old(h.lay), Cs, cs, rs) && Cs[0] == old(Owned(h)) && Cs[|cs|] == Owned(h)
    ensures Intact(old(h.lay).blocks, old(h.ram[..]), h.lay.blocks, h.ram[..], Named(cs))
  {
    hide Intact, Sound, Step, Allowed, ClientStep, Contents, ClientRun, Run, Named;
    ghost var L, m := h.lay, h.ram[..];
    rs, Cs := [], [Owned(h)];
    StartRun(L, m, Owned(h));
    for j := 0 to |cs|
      invariant h.Valid() && h.lay == Run(L, cs[..j]) && |rs| == j && |Cs| == j + 1
      invariant ClientRun(L, Cs, cs[..j], rs) && Cs[0] == old(Owned(h)) && Cs[j] == Owned(h)
      invariant Intact(L.blocks, m, h.lay.blocks, h.ram[..], Named(cs[..j]))
    {
      ghost var B1, m1 := h.lay.blocks, h.ram[..];
      AllowedAt(L, cs, j);
      var r := Perform(h, cs[j]);
      assert cs[..j + 1] == cs[..j] + [cs[j]];
      RunSnoc(L, cs[..j], cs[j]);
      NamedSnoc(cs[..j], cs[j]);
      ClientRunSnoc(L, Cs, cs[..j], rs, cs[j], r, Owned(h));
      IntactTrans(L.blocks, m, B1, m1, h.lay.blocks, h.ram[..], Named(cs[..j]), {Subject(cs[j])});
      rs, Cs := rs + [r], Cs + [Owned(h)];
    }
    assert cs[..|cs|] == cs;
  }

  lemma StartRun(L: Layout, m: seq<byte>, C: map<nat, seq<byte>>)
    ensures Run(L, []) == L && ClientRun(L, [C], [], []) && Intact(L.blocks, m, L.blocks, m, Named([]))
  {
  }

  lemma {:induction false} NamedSnoc(cs: seq<Call>, c: Call)
    ensures Named(cs + [c]) == Named(cs) + {Subject(c)}
  {
    if cs == [] {
      assert cs + [c] == [c] && [c][1..] == [];
    } else {
      assert (cs + [c])[1..] == cs[1..] + [c];
      NamedSnoc(cs[1..], c);
    }
  }

  // ----- What a client reads back

  /**
    The call leaves byte `x` of the client's object alone; `p` points to the object before and `q` after it.  The object
    may be resized and moved as long as the byte fits, and other bytes of it may be overwritten.
   */
  ghost predicate Follows(c: Call, r: nat, p: nat, x: nat, q: nat) {
    if c.DoMalloc? || c.p != p then q == p
    else match c
      case DoFree(_) => false
      case DoRealloc(_, n) => if r == 0 then n > 0 && q == p else x < n && q == r
      case DoStore(_, i, _) => i != x && q == p
  }

  lemma StepKeepsByte(L: Layout, C: map<nat, seq<byte>>, c: Call, r: nat, C': map<nat, seq<byte>>, p: nat, x: nat,
                      q: nat)
    requires ClientStep(L, C, c, r, C') && Follows(c, r, p, x, q)
    requires 0 < p && HDR <= p && p - HDR in C && x < |C[p - HDR]|
    ensures HDR <= q && q - HDR in C' && x < |C'[q - HDR]| && C'[q - HDR][x] == C[p - HDR][x]
  {
    hide NothingFits, Leaks;
    match c
    case DoMalloc(n) => if r != 0 { GainsKeeps(C, C', r, n, p - HDR); }
    case DoFree(_) =>
    case DoRealloc(p', n) =>
      if p' == 0 {
        if r != 0 { GainsKeeps(C, C', r, n, p - HDR); }
      } else if r != 0 {
        if p' == p {
          StartsLikeAt(C'[r - HDR], C[p - HDR], n, x);
        } else {
          MovesKeeps(C, C', p', r, n, p - HDR);
        }
      }
    case DoStore(_, _, _) =>
  }

  lemma GainsKeeps(C: map<nat, seq<byte>>, C': map<nat, seq<byte>>, r: nat, n: nat, u: nat)
    requires Gains(C, C', r, n) && u in C
    ensures u in C' && C'[u] == C[u]
  {
    assert u in C' - {r - HDR};
  }

  lemma MovesKeeps(C: map<nat, seq<byte>>, C': map<nat, seq<byte>>, p: nat, r: nat, n: nat, u: nat)
    requires Moves(C, C', p, r, n) && u in C && u != p - HDR
    ensures u in C' && C'[u] == C[u]
  {
    assert u in C - {p - HDR} && u in C' - {p - HDR, r - HDR};
    assert (C' - {p - HDR, r - HDR})[u] == (C - {p - HDR})[u];
  }

  lemma StartsLikeAt(t: seq<byte>, s: seq<byte>, n: nat, x: nat)
    requires StartsLike(t, s, n) && x < n && x < |s|
    ensures x < |t| && t[x] == s[x]
  {
    if n < |s| {
      assert t[x] == t[..n][x] && s[x] == s[..n][x];
    } else {
      assert t[x] == t[..|s|][x];
    }
  }

  /**
    In every run a byte that the client has stored is read back from its object until the client overwrites it, frees
    the object or shrinks it below the byte, wherever `wdrealloc` has moved the object; `ps` are the pointers to it.
   */
  lemma {:induction false} ReadBack(L: Layout, Cs: seq<map<nat, seq<byte>>>, cs: seq<Call>, rs: seq<nat>,
                                    ps: seq<nat>, x: nat, i: nat, k: nat)
    requires ClientRun(L, Cs, cs, rs) && |ps| == |Cs| && i <= k <= |cs|
    requires forall j {:trigger rs[j]} :: i <= j < k ==> Follows(cs[j], rs[j], ps[j], x, ps[j + 1])
    requires HDR <= ps[i] && ps[i] - HDR in Cs[i] && x < |Cs[i][ps[i] - HDR]|
    ensures HDR <= ps[k] && ps[k] - HDR in Cs[k] && x < |Cs[k][ps[k] - HDR]|
    ensures Cs[k][ps[k] - HDR][x] == Cs[i][ps[i] - HDR][x]
    decreases k - i
  {
    hide ClientStep, Follows;
    if i < k {
      assert ClientStep(Run(L, cs[..i]), Cs[i], cs[i], rs[i], Cs[i + 1]);
      StepKeepsByte(Run(L, cs[..i]), Cs[i], cs[i], rs[i], Cs[i + 1], ps[i], x, ps[i + 1]);
      ReadBack(L, Cs, cs, rs, ps, x, i + 1, k);
    }
  }

  /**
    The first `wdmalloc` after `wdmalloc_init` succeeds exactly when the region is small enough for 15 size bits and
    large enough for the request; on a larger region, such as the kernel's 40960 bytes, it always fails.
   */
  method FirstMalloc(h: Heap, start: nat, size: nat, n: nat) returns (r: nat)
    requires 0 < start && HDR < size < U16 && start + size <= h.ram.Length <= U64 && n < U16
    modifies h, h.ram
    ensures r != 0 <==> size <= 32779 && n <= size - 12
  {
    h.Init(start, size);
    if size <= MAX_HEAP {
      InitialSound(start, size);
      MallocFails(Initial(start, size), n);
      assert Fits(Initial(start, size).blocks, start, n) <==> n <= size - HDR;
    }
    r := h.Malloc(n);
  }

  // ----- The leak is reached

  /** The heaps on the way to that of `LeakExample`. */
  ghost function LeakStep(k: nat): Blocks {
    if k == 0 then Initial(100, 104).blocks
    else if k == 1 then Blocks(100, 204, map[100 := Tag(0, 40, true), 152 := Tag(40, 40, false)])
    else Blocks(100, 204, map[100 := Tag(0, 20, true), 132 := Tag(20, 8, false), 152 := Tag(8, 40, k > 2)])
  }

  lemma LeakCarve(k: nat, n: nat, t: nat)
    requires (k == 0 && n == 40 && t == 92) || (k == 1 && n == 8 && t == 40)
    ensures Step(Layout(LeakStep(k), [100]), DoMalloc(n)) == Layout(LeakStep(k + 1), [100])
  {
    hide Step;
    var B := Split(LeakStep(k), 100, t - n - HDR, true, false);
    assert B.tags == LeakStep(k + 1).tags;
    CarvesFrom(Layout(LeakStep(k), [100]), n, 100, t, B);
  }

  lemma LeakFree(L: Layout)
    requires L == Layout(LeakStep(2), [100])
    ensures Allowed(L, DoFree(164)) && Step(L, DoFree(164)) == Layout(LeakStep(3), [152, 100])
  {
    var M := Mark(L.blocks, 152, true);
    assert M.tags == LeakStep(3).tags;
    assert Next(M, 152) == 204 && Prev(M, 152) == 132;
  }

  /** The block at 100 fits better than the one at 152 and is taken whole. */
  lemma LeakTake(L: Layout)
    requires L == Layout(LeakStep(3), [152, 100])
    ensures Step(L, DoMalloc(20)) == LeakLayout()
  {
    assert BestFit(L, 20, 0) == -1 && BestFit(L, 20, 1) == 0 && BestFit(L, 20, 2) == 1;
    assert Mark(L.blocks, 100, false).tags == LeakLayout().blocks.tags;
    assert RemoveAt(L.fl, 1) == [152];
  }

  /** The heap of `LeakExample` is four calls away from a fresh one. */
  lemma LeakReached(cs: seq<Call>)
    requires cs == [DoMalloc(40), DoMalloc(8), DoFree(164), DoMalloc(20)]
    ensures AllowedRun(Initial(100, 104), cs) && Run(Initial(100, 104), cs) == LeakLayout()
  {
    hide Step, LeakStep, LeakLayout;
    var L := k => Layout(LeakStep(k), if k == 3 then [152, 100] else [100]);
    var R := LeakLayout();
    LeakTake(L(3));
    RunCons(L(3), cs[3], R, [], R);
    LeakFree(L(2));
    RunCons(L(2), cs[2], L(3), [cs[3]], R);
    LeakCarve(1, 8, 40);
    RunCons(L(1), cs[1], L(2), [cs[2], cs[3]], R);
    LeakCarve(0, 40, 92);
    RunCons(L(0), cs[0], L(1), [cs[1], cs[2], cs[3]], R);
    assert cs == [cs[0]] + [cs[1], cs[2], cs[3]] && [cs[1]] + [cs[2], cs[3]] == [cs[1], cs[2], cs[3]];
    assert [cs[2]] + [cs[3]] == [cs[2], cs[3]] && [cs[3]] + [] == [cs[3]];
    assert L(0) == Initial(100, 104) by { LeakStart(); }
  }

  lemma LeakStart()
    ensures Layout(LeakStep(0), [100]) == Initial(100, 104)
  {
  }
}
