/** The calls of the allocator as functions of the abstract heap, and runs of them. */
module HeapCalls {
  import opened Wrappers
  import opened HeapMemory
  import opened HeapLayout
  import opened HeapInvariant
  import opened HeapOwnership

  /** The pointers that rt_free and rt_realloc may be given: NULL, an address outside the
      region, or a live pointer. */
  predicate Acceptable(h: Heap, p: Option<int>) {
    p.Some? ==> p.value < 0 || h.End() <= p.value || Live(h, p.value)
  }

  /** Requests to rt_malloc that are refused before the search, or whose search bound does
      not wrap. */
  predicate Searchable(h: Heap, request: nat) {
    request == 0 || RtAlign(request) > h.size || h.size >= MIN_SIZE
  }

  /** The case of rt_realloc that allocates a new block. */
  predicate Moves(b: Block, n: nat) {
    b.Room() != n && !Shrinks(b, n)
  }

  /** Whether rt_realloc calls rt_malloc. */
  predicate Reallocates(h: Heap, p: Option<int>, request: nat) {
    && RtAlign(request) <= h.size
    && (p == None || (Live(h, p.value) && Moves(h.blocks[BlockOf(h, p.value)], RtAlign(request))))
  }

  /** Requests to rt_realloc that need no search, or one whose bound does not wrap. */
  predicate Resizable(h: Heap, p: Option<int>, request: nat) {
    Reallocates(h, p, request) ==> Searchable(h, RtAlign(request))
  }

  lemma AlignedSize(request: nat)
    ensures RtAlign(request) % 4 == 0 && RtAlign(request) < WORD
    ensures request < WORD ==> RtAlign(RtAlign(request)) == RtAlign(request)
  {}

  lemma WantedIsAligned(request: nat)
    ensures Wanted(request) % 4 == 0 && Wanted(request) >= MIN_SIZE
  {
    AlignedSize(request);
  }

  lemma MallocIsWellFormed(h: Heap, request: nat)
    requires WellFormed(h)
    ensures WellFormed(Malloc(h, request).0)
    ensures LfreeIsLowest(h) ==> LfreeIsLowest(Malloc(h, request).0)
  {
    if Grants(h, request) {
      WantedIsAligned(request);
      MallocKeepsWellFormed(h, Chosen(h, request), Wanted(request));
    }
  }

  /** rt_free. */
  ghost function Free(h: Heap, p: Option<int>): (h': Heap)
    requires WellFormed(h) && Acceptable(h, p)
    ensures WellFormed(h')
    ensures LfreeIsLowest(h) ==> LfreeIsLowest(h')
  {
    if p.Some? && Live(h, p.value)
    then FreeKeepsWellFormed(h, BlockOf(h, p.value)); FreeAt(h, BlockOf(h, p.value))
    else h
  }

  /** An allocation leaves every live pointer live. */
  lemma StaysLive(h: Heap, request: nat, p: int)
    requires WellFormed(h) && Live(h, p)
    ensures WellFormed(Malloc(h, request).0) && Live(Malloc(h, request).0, p)
    ensures Malloc(h, request).0.blocks[BlockOf(Malloc(h, request).0, p)] == h.blocks[BlockOf(h, p)]
  {
    MallocIsWellFormed(h, request);
    if Grants(h, request) {
      UsedAfterMalloc(h, Chosen(h, request), Wanted(request));
      var b := h.blocks[BlockOf(h, p)];
      assert b in UsedBlocks(h.blocks);
      BlockOfOwned(Malloc(h, request).0, b);
    }
  }

  /** The index that block k has after an allocation. */
  ghost function Moved(h: Heap, k: nat, request: nat): (kg: nat)
    requires WellFormed(h) && k < |h.blocks| && h.blocks[k].used
    ensures var grown := Malloc(h, request).0;
            WellFormed(grown) && kg < |grown.blocks| && grown.blocks[kg] == h.blocks[k]
                && grown.blocks[kg].len <= grown.usedMem
  {
    var p := h.blocks[k].start + HEADER;
    BlockOfOwned(h, h.blocks[k]);
    StaysLive(h, request, p);
    FreeKeepsWellFormed(Malloc(h, request).0, BlockOf(Malloc(h, request).0, p));
    BlockOf(Malloc(h, request).0, p)
  }

  /** The last case of rt_realloc on block k: allocate and, if that worked, free block k. */
  ghost function Move(h: Heap, k: nat, n: nat): (r: (Heap, Option<nat>))
    requires WellFormed(h) && k < |h.blocks| && h.blocks[k].used
    ensures WellFormed(r.0)
  {
    var (grown, q) := Malloc(h, n);
    if q == None then (h, None)
    else
      FreeKeepsWellFormed(grown, Moved(h, k, n));
      (FreeAt(grown, Moved(h, k, n)), q)
  }

  /** rt_realloc on the live block k, for the aligned size n. */
  ghost function Resize(h: Heap, k: nat, n: nat): (r: (Heap, Option<int>))
    requires WellFormed(h) && k < |h.blocks| && h.blocks[k].used && n % 4 == 0
    ensures WellFormed(r.0)
  {
    var p := h.blocks[k].start + HEADER;
    if h.blocks[k].Room() == n then (h, Some(p))
    else if Shrinks(h.blocks[k], n) then
      ShrinkKeepsWellFormed(h, k, n);
      (ShrinkAt(h, k, n), Some(p))
    else Move(h, k, n)
  }

  /** rt_realloc: the heap after the call, and the address returned. */
  ghost function Realloc(h: Heap, p: Option<int>, request: nat): (r: (Heap, Option<int>))
    requires WellFormed(h) && Acceptable(h, p)
    ensures WellFormed(r.0)
  {
    var n := RtAlign(request);
    AlignedSize(request);
    if n > h.size then (h, None)
    else if p == None then
      MallocIsWellFormed(h, n);
      Malloc(h, n)
    else if !Live(h, p.value) then (h, p)
    else
      Resize(h, BlockOf(h, p.value), n)
  }
}
