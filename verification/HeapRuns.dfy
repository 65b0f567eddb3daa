/** Runs of calls on the heap, from initialisation on. */
module HeapRuns {
  import opened Wrappers
  import opened HeapMemory
  import opened HeapLayout
  import opened HeapInvariant
  import opened HeapOwnership
  import opened HeapCalls

  datatype Call =
    | MallocCall(request: nat)
    | FreeCall(p: Option<int>)
    | ReallocCall(p: Option<int>, request: nat)

  /** What the code asks of its callers: 32-bit sizes for which the search ends, and
      pointers that are NULL, outside the region or live. */
  ghost predicate Allowed(h: Heap, c: Call) {
    match c
    case MallocCall(request) => request < WORD && Searchable(h, request)
    case FreeCall(p) => Acceptable(h, p)
    case ReallocCall(p, request) => request < WORD && Resizable(h, p, request) && Acceptable(h, p)
  }

  ghost function Apply(h: Heap, c: Call): (h': Heap)
    requires WellFormed(h) && Allowed(h, c)
    ensures WellFormed(h')
  {
    match c
    case MallocCall(request) => MallocIsWellFormed(h, request); Malloc(h, request).0
    case FreeCall(p) => Free(h, p)
    case ReallocCall(p, request) => Realloc(h, p, request).0
  }

  /** Every call of the run is allowed when it is made. */
  ghost predicate IsRun(h: Heap, cs: seq<Call>)
    requires WellFormed(h)
    decreases |cs|
  {
    cs != [] ==> Allowed(h, cs[0]) && IsRun(Apply(h, cs[0]), cs[1..])
  }

  /** The heap after a run; it is well formed whatever the calls were. */
  ghost function After(h: Heap, cs: seq<Call>): (h': Heap)
    requires WellFormed(h) && IsRun(h, cs)
    ensures WellFormed(h')
    decreases |cs|
  {
    if cs == [] then h else After(Apply(h, cs[0]), cs[1..])
  }

  ghost predicate IsRunFromInit(size: nat, cs: seq<Call>) {
    && size % 4 == 0
    && (InitialHeapIsWellFormed(size); IsRun(InitialHeap(size), cs))
  }

  ghost function AfterInit(size: nat, cs: seq<Call>): (h: Heap)
    requires IsRunFromInit(size, cs)
    ensures WellFormed(h)
  {
    InitialHeapIsWellFormed(size);
    After(InitialHeap(size), cs)
  }

  /** From initialisation on, every reachable heap is tiled by 4-aligned blocks without free
      neighbours, its used_mem is the extent of the used blocks, and used and free extents
      add up to the payload and one header. */
  lemma ReachableHeaps(size: nat, cs: seq<Call>)
    requires IsRunFromInit(size, cs)
    ensures var h := AfterInit(size, cs);
            && h.size == size
            && Tiles(h.blocks, h.End()) && NoFreeNeighbours(h.blocks) && LfreeIsFree(h)
            && h.usedMem == Extent(h.blocks, true)
            && h.usedMem + Extent(h.blocks, false) == size + HEADER
  {
    InitialHeapIsWellFormed(size);
    SizeStays(InitialHeap(size), cs);
    UsedAndFreeFillTheHeap(AfterInit(size, cs));
  }

  lemma {:induction false} SizeStays(h: Heap, cs: seq<Call>)
    requires WellFormed(h) && IsRun(h, cs)
    ensures After(h, cs).size == h.size
    decreases |cs|
  {
    if cs != [] {
      ApplyKeepsSize(h, cs[0]);
      SizeStays(Apply(h, cs[0]), cs[1..]);
    }
  }

  lemma ApplyKeepsSize(h: Heap, c: Call)
    requires WellFormed(h) && Allowed(h, c)
    ensures Apply(h, c).size == h.size
  {
    hide WellFormed, Live, BlockOf, Grants, Chosen, Wanted, RtAlign, Plug, PlugLfree, SplitBlock, MarkBlock;
  }

  /** In runs without realloc, lfree is the lowest free block or the end. */
  lemma {:induction false} WithoutReallocLfreeIsLowest(h: Heap, cs: seq<Call>)
    requires WellFormed(h) && LfreeIsLowest(h) && IsRun(h, cs)
    requires forall i :: 0 <= i < |cs| ==> !cs[i].ReallocCall?
    ensures LfreeIsLowest(After(h, cs))
    decreases |cs|
  {
    if cs != [] {
      assert !cs[0].ReallocCall?;
      if cs[0].MallocCall? {
        MallocIsWellFormed(h, cs[0].request);
      }
      WithoutReallocLfreeIsLowest(Apply(h, cs[0]), cs[1..]);
    }
  }

  // ----- max_mem -----

  /** The largest used_mem while a call runs: a realloc that moves a block holds both
      regions for a while. */
  ghost function UsedDuring(h: Heap, c: Call): nat
    requires WellFormed(h) && Allowed(h, c)
  {
    match c
    case MallocCall(request) => Max(h.usedMem, Malloc(h, request).0.usedMem)
    case FreeCall(p) => h.usedMem
    case ReallocCall(p, request) =>
      if Reallocates(h, p, request)
      then Max(h.usedMem, Malloc(h, RtAlign(request)).0.usedMem)
      else h.usedMem
  }

  /** The largest used_mem over a whole run, its first heap included. */
  ghost function Peak(h: Heap, cs: seq<Call>): nat
    requires WellFormed(h) && IsRun(h, cs)
    decreases |cs|
  {
    if cs == [] then h.usedMem else Max(UsedDuring(h, cs[0]), Peak(Apply(h, cs[0]), cs[1..]))
  }

  lemma MaxAfterCall(h: Heap, c: Call)
    requires WellFormed(h) && Allowed(h, c)
    ensures Apply(h, c).maxMem == Max(h.maxMem, UsedDuring(h, c))
  {
    hide Tiles, NoFreeNeighbours, PointsAtFree, Extent, LastHasRoom, Chosen, Wanted, Plug, PlugLfree, SplitBlock,
        MarkBlock, NextFree;
  }

  /** max_mem is the historical maximum of used_mem. */
  lemma {:induction false} MaxIsHistorical(h: Heap, cs: seq<Call>)
    requires WellFormed(h) && IsRun(h, cs)
    ensures After(h, cs).maxMem == Max(h.maxMem, Peak(h, cs))
    decreases |cs|
  {
    if cs != [] {
      MaxAfterCall(h, cs[0]);
      MaxIsHistorical(Apply(h, cs[0]), cs[1..]);
    }
  }

  // ----- A free block the search does not reach -----

  /** Two blocks fill the heap, and the first is shrunk in place. */
  const SHRINK_FIRST := [MallocCall(40), MallocCall(12), ReallocCall(Some(12), 4)]

  function AfterFirst(): Heap {
    Heap(68, [Block(0, 52, true), Block(52, 28, false)], 52, 52, 52)
  }

  function AfterSecond(): Heap {
    Heap(68, [Block(0, 52, true), Block(52, 28, true)], 80, 80, 80)
  }

  function AfterShrink(): Heap {
    Heap(68, [Block(0, 16, true), Block(16, 36, false), Block(52, 28, true)], 80, 44, 80)
  }

  lemma FirstStep()
    ensures Malloc(InitialHeap(68), 40).0 == AfterFirst()
  {
    var h := InitialHeap(68);
    assert h.blocks[0].start == 0;
    assert IndexOf(h.blocks, h.lfree) == 0 && Wanted(40) == 40;
    assert Fits(h.blocks[0], 40);
    assert Chosen(h, 40) == 0;
    var split := SplitBlock(h.blocks, 0, 40);
    assert split == AfterFirst().blocks;
    assert NextFree(split, 0, 80) == NextFree(split, 1, 80) == 52;
    assert MallocAt(h, 0, 40) == AfterFirst();
  }

  lemma SecondStep()
    ensures Malloc(AfterFirst(), 12).0 == AfterSecond()
  {
    var h := AfterFirst();
    assert h.blocks[0].start == 0 && h.blocks[1].start == 52;
    assert IndexOf(h.blocks, h.lfree) == 1 && Wanted(12) == 12;
    assert Fits(h.blocks[1], 12);
    assert Chosen(h, 12) == 1;
    var marked := MarkBlock(h.blocks, 1, true);
    assert marked == AfterSecond().blocks;
    assert NextFree(marked, 1, 80) == NextFree(marked, 2, 80) == 80;
    assert MallocAt(h, 1, 12) == AfterSecond();
  }

  lemma ThirdStep()
    requires WellFormed(AfterSecond())
    ensures Allowed(AfterSecond(), SHRINK_FIRST[2]) && Apply(AfterSecond(), SHRINK_FIRST[2]) == AfterShrink()
  {
    var h := AfterSecond();
    assert h.blocks[0].start == 0;
    assert BlockOf(h, 12) == 0;
    var split := SplitBlock(h.blocks, 0, 4);
    assert split == AfterShrink().blocks;
  }

  lemma NothingFromTheEnd()
    ensures Malloc(AfterShrink(), 12).1 == None
  {
    assert IndexOf(AfterShrink().blocks, 80) == 3;
  }

  lemma OneMoreCall(h: Heap, c: Call, cs: seq<Call>)
    requires WellFormed(h) && Allowed(h, c) && IsRun(Apply(h, c), cs)
    ensures IsRun(h, [c] + cs) && After(h, [c] + cs) == After(Apply(h, c), cs)
  {
    hide Allowed, Apply, WellFormed;
    assert ([c] + cs)[1..] == cs;
  }

  lemma MallocStep(h: Heap, request: nat)
    requires WellFormed(h) && h.size >= MIN_SIZE && request < WORD
    ensures Allowed(h, MallocCall(request)) && Apply(h, MallocCall(request)) == Malloc(h, request).0
  {}

  /** Three calls from initialisation on leave lfree above a free block, and a request that
      this block could serve is refused. */
  lemma ShrinkHidesAFreeBlock()
    ensures IsRunFromInit(68, SHRINK_FIRST)
    ensures var h := AfterInit(68, SHRINK_FIRST);
            && !LfreeIsLowest(h) && Malloc(h, 12).1 == None
            && exists i :: 0 <= i < |h.blocks| && Fits(h.blocks[i], 12) && h.blocks[i].Limit() < h.End()
  {
    hide Malloc, WellFormed, InitialHeap, Allowed, Apply, IsRun, After, AfterFirst, AfterSecond, AfterShrink;
    var h0 := InitialHeap(68);
    InitialHeapIsWellFormed(68);
    FirstStep();
    SecondStep();
    TheirSizes();
    MallocStep(h0, 40);
    MallocStep(AfterFirst(), 12);
    ThirdStep();
    NoMoreCalls(AfterShrink());
    OneMoreCall(AfterSecond(), SHRINK_FIRST[2], []);
    OneMoreCall(AfterFirst(), MallocCall(12), [SHRINK_FIRST[2]] + []);
    OneMoreCall(h0, MallocCall(40), [MallocCall(12)] + ([SHRINK_FIRST[2]] + []));
    assert SHRINK_FIRST == [MallocCall(40)] + ([MallocCall(12)] + ([SHRINK_FIRST[2]] + []));
    NothingFromTheEnd();
    FreeBelowLfree();
  }

  lemma TheirSizes()
    ensures InitialHeap(68).size == AfterFirst().size == 68
  {}

  lemma NoMoreCalls(h: Heap)
    requires WellFormed(h)
    ensures IsRun(h, []) && After(h, []) == h
  {}

  lemma FreeBelowLfree()
    ensures var h := AfterShrink();
            !LfreeIsLowest(h) && |h.blocks| == 3 && Fits(h.blocks[1], 12) && h.blocks[1].Limit() < h.End()
  {}
}
