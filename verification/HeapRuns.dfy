/** Runs of the allocator: what holds after anything a client may do. */
module HeapRuns {
  import opened Bytes
  import opened HeapLayout
  import opened HeapSafety
  import opened HeapMerging

  /** A call, or a store of one byte through a pointer; pointers are addresses, 0 is NULL. */
  datatype Call = DoMalloc(n: nat) | DoFree(p: nat) | DoRealloc(p: nat, n: nat) | DoStore(p: nat, i: nat, b: byte)

  /**
    Clients pass live pointers, NULL, and to `wdfree` also anything outside the heap; they store where a pointer owns
    bytes.
   */
  ghost predicate Allowed(L: Layout, c: Call) {
    match c
    case DoMalloc(n) => true
    case DoFree(p) => Live(L, p) || !(L.blocks.start + HDR <= p < L.blocks.end)
    case DoRealloc(p, n) => p == 0 || Live(L, p)
    case DoStore(p, i, b) => Live(L, p) && i < L.blocks.tags[p - HDR].size
  }

  ghost function Step(L: Layout, c: Call): Layout {
    match c
    case DoMalloc(n) => Malloc(L, n).0
    case DoFree(p) => Free(L, p)
    case DoRealloc(p, n) => Realloc(L, p, n).0
    case DoStore(p, i, b) => L
  }

  ghost function Run(L: Layout, cs: seq<Call>): Layout
    decreases |cs|
  {
    if cs == [] then L else Run(Step(L, cs[0]), cs[1..])
  }

  ghost predicate AllowedRun(L: Layout, cs: seq<Call>)
    decreases |cs|
  {
    cs != [] ==> Allowed(L, cs[0]) && AllowedRun(Step(L, cs[0]), cs[1..])
  }

  lemma StepSound(L: Layout, c: Call)
    requires Sound(L) && Allowed(L, c)
    ensures Sound(Step(L, c))
  {
    match c
    case DoMalloc(n) => MallocSound(L, n);
    case DoFree(p) => FreeSound(L, p);
    case DoRealloc(p, n) => ReallocSound(L, p, n);
    case DoStore(p, i, b) =>
  }

  lemma {:induction false} RunKeepsSound(L: Layout, cs: seq<Call>)
    requires Sound(L) && AllowedRun(L, cs)
    ensures Sound(Run(L, cs))
    decreases |cs|
  {
    hide Step, Allowed, Sound;
    if cs != [] {
      StepSound(L, cs[0]);
      RunKeepsSound(Step(L, cs[0]), cs[1..]);
    }
  }

  /**
    Every run from `wdmalloc_init` on a heap of 13 to 32779 bytes: blocks tile, tags agree, the freelist lists the
    free blocks.
   */
  lemma RunSound(start: nat, size: nat, cs: seq<Call>)
    requires 0 < start && 12 < size <= 32779 && AllowedRun(Initial(start, size), cs)
    ensures Sound(Run(Initial(start, size), cs))
  {
    InitialSound(start, size);
    RunKeepsSound(Initial(start, size), cs);
  }

  // ----- Free blocks stay apart

  /** A call that does not grow a block in the one way that strands free space. */
  ghost predicate Tidy(L: Layout, c: Call) {
    match c
    case DoMalloc(n) => true
    case DoFree(p) => true
    case DoRealloc(p, n) => L.fl == [] || !Live(L, p) || n <= L.blocks.tags[p - HDR].size ||
      !Strands(L.blocks, p - HDR, n)
    case DoStore(p, i, b) => true
  }

  ghost predicate TidyRun(L: Layout, cs: seq<Call>)
    decreases |cs|
  {
    cs != [] ==> Tidy(L, cs[0]) && TidyRun(Step(L, cs[0]), cs[1..])
  }

  /** One call keeps free blocks apart exactly when it is tidy. */
  lemma StepNoFreePair(L: Layout, c: Call)
    requires Sound(L) && NoFreePair(L.blocks) && Allowed(L, c)
    ensures NoFreePair(Step(L, c).blocks) <==> Tidy(L, c)
  {
    hide Malloc, Free, Shrink, Grow, Strands, Choose;
    match c
    case DoMalloc(n) => MallocNoFreePair(L, n);
    case DoFree(p) => FreeNoFreePair(L, p);
    case DoRealloc(p, n) =>
      MallocNoFreePair(L, n);
      if p != 0 {
        assert !(0 == p);
        var a := p - HDR;
        GrowNoFreePair(L, a, n);
        ShrinkNoFreePair(L, a, n);
        FreeNoFreePair(L, p);
      } else {
        assert !Live(L, p);
      }
    case DoStore(p, i, b) =>
  }

  lemma {:induction false} RunNoFreePair(L: Layout, cs: seq<Call>)
    requires Sound(L) && NoFreePair(L.blocks) && AllowedRun(L, cs) && TidyRun(L, cs)
    ensures Sound(Run(L, cs)) && NoFreePair(Run(L, cs).blocks)
    decreases |cs|
  {
    hide Step, Allowed, Sound, NoFreePair, Tidy;
    if cs != [] {
      StepSound(L, cs[0]);
      StepNoFreePair(L, cs[0]);
      RunNoFreePair(Step(L, cs[0]), cs[1..]);
    }
  }

  lemma StepBounds(L: Layout, c: Call)
    ensures Step(L, c).blocks.start == L.blocks.start && Step(L, c).blocks.end == L.blocks.end
  {
  }

  lemma {:induction false} RunBounds(L: Layout, cs: seq<Call>)
    ensures Run(L, cs).blocks.start == L.blocks.start && Run(L, cs).blocks.end == L.blocks.end
    decreases |cs|
  {
    if cs != [] {
      StepBounds(L, cs[0]);
      RunBounds(Step(L, cs[0]), cs[1..]);
    }
  }

  /** A tidy run after which nothing is live ends in the very layout it started from. */
  lemma RunAllFreed(start: nat, size: nat, cs: seq<Call>)
    requires 0 < start && 12 < size <= 32779
    requires AllowedRun(Initial(start, size), cs) && TidyRun(Initial(start, size), cs)
    requires forall p :: !Live(Run(Initial(start, size), cs), p)
    ensures Run(Initial(start, size), cs) == Initial(start, size)
  {
    var I := Initial(start, size);
    InitialSound(start, size);
    RunNoFreePair(I, cs);
    RunBounds(I, cs);
    var L := Run(I, cs);
    forall a | a in L.blocks.tags ensures L.blocks.tags[a].free { assert !Live(L, a + HDR); }
    AllFreed(L);
  }

  // ----- An exhausted freelist

  /** Once the freelist is empty no call ever changes the heap again, and every allocation returns NULL. */
  lemma {:induction false} EmptyFreelistIsForever(L: Layout, cs: seq<Call>)
    requires L.fl == []
    ensures Run(L, cs) == L
    ensures forall n :: Malloc(L, n).1 == 0
    ensures forall p, n :: Realloc(L, p, n).1 == 0
    decreases |cs|
  {
    if cs != [] {
      assert Step(L, cs[0]) == L;
      EmptyFreelistIsForever(L, cs[1..]);
    }
  }

  /** On every fresh heap one allocation can use up the freelist, after which nothing happens any more. */
  lemma FullHeapExample(start: nat, size: nat, cs: seq<Call>)
    requires 0 < start && 12 < size <= 32779
    ensures var (M, r) := Malloc(Initial(start, size), size - HDR); Live(M, r) && Run(M, cs) == M && M.fl == []
  {
    hide Run;
    var I := Initial(start, size);
    InitialSound(start, size);
    assert BestFit(I, size - HDR, 1) == 0;
    MallocUsed(I, size - HDR, start);
    EmptyFreelistIsForever(Malloc(I, size - HDR).0, cs);
  }

  // ----- Heaps that are reached

  /** `wdmalloc` that carves `n` bytes off the only listed block. */
  lemma CarvesFrom(L: Layout, n: nat, a: nat, t: nat, B: Blocks)
    requires L.fl == [a] && a in L.blocks.tags && L.blocks.tags[a].free && L.blocks.tags[a].size == t && n + HDR <= t
    requires B == Split(L.blocks, a, t - n - HDR, true, false)
    ensures Step(L, DoMalloc(n)) == Layout(B, [a])
  {
    hide Split;
    assert BestFit(L, n, 0) == -1 && BestFit(L, n, 1) == 0;
  }

  lemma RunCons(L: Layout, c: Call, M: Layout, cs: seq<Call>, R: Layout)
    requires Allowed(L, c) && Step(L, c) == M && AllowedRun(M, cs) && Run(M, cs) == R
    ensures AllowedRun(L, [c] + cs) && Run(L, [c] + cs) == R
  {
    hide Step, Allowed;
    assert ([c] + cs)[1..] == cs;
  }

  /** The heaps on the way to that of `StrandedExample`. */
  ghost function StrandedStep(k: nat): Blocks {
    if k == 0 then Initial(100, 400).blocks
    else if k == 1 then Blocks(100, 500, map[100 := Tag(0, 252, true), 364 := Tag(252, 124, false)])
    else if k == 2 then
      Blocks(100, 500, map[100 := Tag(0, 232, true), 344 := Tag(232, 8, false), 364 := Tag(8, 124, false)])
    else
      Blocks(100, 500, map[100 := Tag(0, 200, true), 312 := Tag(200, 20, false), 344 := Tag(20, 8, false),
                           364 := Tag(8, 124, false)])
  }

  lemma StrandedCarve(k: nat, n: nat, t: nat)
    requires (k == 0 && n == 124 && t == 388) || (k == 1 && n == 8 && t == 252) || (k == 2 && n == 20 && t == 232)
    ensures Step(Layout(StrandedStep(k), [100]), DoMalloc(n)) == Layout(StrandedStep(k + 1), [100])
  {
    hide Step;
    var B := Split(StrandedStep(k), 100, t - n - HDR, true, false);
    assert B.tags == StrandedStep(k + 1).tags;
    CarvesFrom(Layout(StrandedStep(k), [100]), n, 100, t, B);
  }

  lemma StrandedFree(L: Layout)
    requires L == Layout(StrandedStep(3), [100])
    ensures Allowed(L, DoFree(356)) && Step(L, DoFree(356)) == StrandedLayout()
  {
    var M := Mark(L.blocks, 344, true);
    assert M.tags == StrandedLayout().blocks.tags;
    assert Next(M, 344) == 364 && Prev(M, 344) == 312;
  }

  /** The heap of `StrandedExample` is four calls away from a fresh one. */
  lemma StrandedReached(cs: seq<Call>)
    requires cs == [DoMalloc(124), DoMalloc(8), DoMalloc(20), DoFree(356)]
    ensures AllowedRun(Initial(100, 400), cs) && Run(Initial(100, 400), cs) == StrandedLayout()
  {
    hide Step, StrandedStep, StrandedLayout;
    var L := k => Layout(StrandedStep(k), [100]);
    var R := StrandedLayout();
    StrandedFree(L(3));
    RunCons(L(3), cs[3], R, [], R);
    StrandedCarve(2, 20, 232);
    RunCons(L(2), cs[2], L(3), [cs[3]], R);
    StrandedCarve(1, 8, 252);
    RunCons(L(1), cs[1], L(2), [cs[2], cs[3]], R);
    StrandedCarve(0, 124, 388);
    RunCons(L(0), cs[0], L(1), [cs[1], cs[2], cs[3]], R);
    assert cs == [cs[0]] + [cs[1], cs[2], cs[3]] && [cs[1]] + [cs[2], cs[3]] == [cs[1], cs[2], cs[3]];
    assert [cs[2]] + [cs[3]] == [cs[2], cs[3]] && [cs[3]] + [] == [cs[3]];
    assert L(0) == Initial(100, 400) by { StrandedStart(); }
  }

  lemma StrandedStart()
    ensures Layout(StrandedStep(0), [100]) == Initial(100, 400)
  {
  }
}
