/** What callers of the allocator can rely on, for every reachable heap. */
module HeapTheorems {
  import opened Wrappers
  import opened HeapMemory
  import opened HeapLayout
  import opened HeapInvariant
  import opened HeapOwnership
  import opened HeapCalls

  // ----- Initialisation -----

  /** The payload size that rt_system_heap_init computes from the two addresses. */
  function PayloadOf(begin: nat, end: nat): Option<nat> {
    var b, e := RtAlign(begin), end / 4 * 4;
    if e > 2 * HEADER && e - 2 * HEADER >= b then Some(e - b - 2 * HEADER) else None
  }

  /** The region used lies between the two addresses, and payload and both headers fill it
      up to alignment. */
  lemma PayloadFits(begin: nat, end: nat)
    requires begin <= WORD - 4 && end < WORD && PayloadOf(begin, end).Some?
    ensures var m := PayloadOf(begin, end).value;
            && m % 4 == 0 && m + 2 * HEADER < WORD
            && begin <= RtAlign(begin) < begin + 4
            && end - 4 < RtAlign(begin) + m + 2 * HEADER <= end
  {}

  /** Both headers fit between the two addresses, behind the aligned address s. */
  predicate HeadersFit(s: nat, begin: nat, end: nat) {
    s % 4 == 0 && begin <= s && s + 2 * HEADER <= end
  }

  /** Initialisation is refused exactly when the headers fit nowhere, or only at address 0
      below 28. */
  lemma RefusedIffHeadersDoNotFit(begin: nat, end: nat)
    requires begin <= WORD - 4 && end < WORD
    ensures PayloadOf(begin, end) == None <==> end < 28 || forall s :: !HeadersFit(s, begin, end)
  {
    AlignIsLeast(begin, RtAlign(begin));
    hide RtAlign;
    if PayloadOf(begin, end).Some? {
      assert HeadersFit(RtAlign(begin), begin, end);
    } else if end >= 28 {
      forall s
        ensures !HeadersFit(s, begin, end)
      {
        AlignIsLeast(begin, s);
        FloorIsGreatest(end, s);
      }
    }
  }

  lemma AlignIsLeast(begin: nat, s: nat)
    requires begin <= WORD - 4
    ensures begin <= RtAlign(begin) && RtAlign(begin) % 4 == 0
    ensures s % 4 == 0 && begin <= s ==> RtAlign(begin) <= s
  {}

  lemma FloorIsGreatest(end: nat, s: nat)
    ensures s % 4 == 0 && s + 2 * HEADER <= end ==> s + 2 * HEADER <= end / 4 * 4
  {}

  // ----- Sizes -----

  /** The size a request searches for is the least multiple of four that is at least the
      request and at least twelve, unless the alignment wraps. */
  lemma WantedIsLeast(request: nat, n: nat)
    requires request < WORD
    ensures Wanted(request) % 4 == 0 && Wanted(request) >= 12
    ensures n % 4 == 0 && n >= request && n >= 12 && request <= WORD - 4 ==> Wanted(request) <= n
    ensures request <= Wanted(request) <==> request <= WORD - 4
  {}

  /** What is refused without a search, and that a refusal changes nothing. */
  lemma RefusedWithoutSearch(h: Heap, request: nat)
    ensures request == 0 || RtAlign(request) > h.size ==> Malloc(h, request).1 == None
    ensures Malloc(h, request).1 == None ==> Malloc(h, request).0 == h
  {}

  // ----- First fit -----

  /** The one fitting block that the search bound shuts out: an exact fit that ends the
      region. */
  predicate ExactAtEnd(h: Heap, b: Block, s: nat) {
    b.Limit() == h.End() && b.Room() == s
  }

  lemma BoundShutsOutExactEnd(h: Heap, i: nat, s: nat)
    requires WellFormed(h) && i < |h.blocks| && Fits(h.blocks[i], s) && s <= h.size
    ensures h.blocks[i].start < h.size - s <==> !ExactAtEnd(h, h.blocks[i], s)
  {
    AllOrdered(h.blocks, h.End());
  }

  lemma IndexOfLfree(h: Heap, i: nat)
    requires WellFormed(h) && i < |h.blocks|
    ensures IndexOf(h.blocks, h.lfree) <= i <==> h.lfree <= h.blocks[i].start
  {
    AllOrdered(h.blocks, h.End());
    if h.lfree != h.End() {
      var j :| 0 <= j < |h.blocks| && h.blocks[j].start == h.lfree && !h.blocks[j].used;
      IndexOfStart(h.blocks, h.End(), j);
    }
  }

  /** Block i fits and is not below lfree. */
  predicate Candidate(h: Heap, i: int, s: nat) {
    0 <= i < |h.blocks| && Fits(h.blocks[i], s) && h.lfree <= h.blocks[i].start
  }

  /** The chosen index is the first candidate, if there is one. */
  lemma ChosenIsFirstCandidate(h: Heap, request: nat)
    requires WellFormed(h)
    ensures var k, s := Chosen(h, request), Wanted(request);
            && (k < |h.blocks| ==> Candidate(h, k, s))
            && forall i :: Candidate(h, i, s) ==> k <= i
  {
    var k, s := Chosen(h, request), Wanted(request);
    forall i | Candidate(h, i, s)
      ensures k <= i
    {
      IndexOfLfree(h, i);
    }
    if k < |h.blocks| {
      IndexOfLfree(h, k);
    }
  }

  lemma CandidatesAreOrdered(h: Heap, k: nat, i: int)
    requires WellFormed(h) && k <= i < |h.blocks|
    ensures h.blocks[k].start <= h.blocks[i].start
    ensures k < i ==> h.blocks[k].Limit() < h.End()
  {
    AllOrdered(h.blocks, h.End());
  }

  /** A request that could be granted is refused exactly when every candidate is an exact
      fit that ends the region. */
  lemma RefusedOnlyWithoutCandidates(h: Heap, request: nat)
    requires WellFormed(h) && 0 < request && MIN_SIZE <= h.size && RtAlign(request) <= h.size
    ensures Malloc(h, request).1 == None <==>
              forall i :: Candidate(h, i, Wanted(request)) ==> ExactAtEnd(h, h.blocks[i], Wanted(request))
  {
    hide WellFormed, Chosen, Candidate;
    var s, k := Wanted(request), Chosen(h, request);
    ChosenIsFirstCandidate(h, request);
    if k < |h.blocks| {
      CandidateFits(h, k, s);
      BoundShutsOutExactEnd(h, k, s);
      forall i | Candidate(h, i, s)
        ensures 0 <= i < |h.blocks|
        ensures h.blocks[k].start >= h.size - s ==> ExactAtEnd(h, h.blocks[i], s)
      {
        CandidateFits(h, i, s);
        CandidatesAreOrdered(h, k, i);
        BoundShutsOutExactEnd(h, i, s);
      }
    } else {
      forall i | Candidate(h, i, s)
        ensures false
      {
        CandidateFits(h, i, s);
      }
    }
  }

  lemma CandidateFits(h: Heap, i: int, s: nat)
    requires Candidate(h, i, s)
    ensures 0 <= i < |h.blocks| && Fits(h.blocks[i], s)
  {}

  /** A granted request gets the lowest candidate. */
  lemma GrantedBlockIsLowest(h: Heap, request: nat)
    requires WellFormed(h) && Malloc(h, request).1.Some?
    ensures var k := BlockOf(h, Malloc(h, request).1.value);
            && k < |h.blocks| && Candidate(h, k, Wanted(request))
            && forall i :: Candidate(h, i, Wanted(request)) ==> h.blocks[k].start <= h.blocks[i].start
  {
    var s, k := Wanted(request), Chosen(h, request);
    ChosenIsFirstCandidate(h, request);
    IndexOfStart(h.blocks, h.End(), k);
    hide WellFormed, Chosen, Candidate;
    forall i | Candidate(h, i, s)
      ensures h.blocks[k].start <= h.blocks[i].start
    {
      CandidateFits(h, i, s);
      CandidatesAreOrdered(h, k, i);
    }
  }

  /** When lfree is the lowest free block, the search covers the whole heap. */
  lemma FirstFitIsComplete(h: Heap, request: nat)
    requires WellFormed(h) && LfreeIsLowest(h) && 0 < request && MIN_SIZE <= h.size && RtAlign(request) <= h.size
    ensures Malloc(h, request).1 == None <==>
              forall i :: 0 <= i < |h.blocks| && Fits(h.blocks[i], Wanted(request)) ==>
                ExactAtEnd(h, h.blocks[i], Wanted(request))
  {
    RefusedOnlyWithoutCandidates(h, request);
    assert forall i :: 0 <= i < |h.blocks| && Fits(h.blocks[i], Wanted(request)) ==> Candidate(h, i, Wanted(request));
  }

  /** A fresh heap refuses a request for its whole payload, though it would fit. */
  lemma WholePayloadIsRefused(size: nat)
    requires size % 4 == 0 && MIN_SIZE <= size < WORD
    ensures Fits(InitialHeap(size).blocks[0], size) && Malloc(InitialHeap(size), size).1 == None
  {
    InitialHeapIsWellFormed(size);
    var h := InitialHeap(size);
    assert RtAlign(size) == size;
    FirstFitIsComplete(h, size);
    assert ExactAtEnd(h, h.blocks[0], size);
  }

  /** Where the blocks are after a shrink. */
  lemma ShrunkStart(bs: seq<Block>, k: nat, n: nat, i: nat)
    requires k < |bs| && bs[k].used && n <= bs[k].Room()
    requires i < |Plug(SplitBlock(bs, k, n), k + 1)|
    ensures var r := Plug(SplitBlock(bs, k, n), k + 1);
            && (i < k ==> r[i] == bs[i])
            && (i == k ==> r[i].used)
            && (i == k + 1 ==> r[i].start == bs[k].start + HEADER + n)
            && (i > k + 1 ==> exists j :: k < j < |bs| && r[i] == bs[j])
  {
    var split := SplitBlock(bs, k, n);
    var r := Plug(split, k + 1);
    assert split[k].used;
    if i > k + 1 {
      var j := if NextIsFree(split, k + 1) then i else i - 1;
      assert r[i] == split[j + 1] && split[j + 1] == bs[j];
    }
  }

  /** A free block after a shrink is a free block from before, or starts inside block k. */
  lemma FreeAfterShrink(h: Heap, k: nat, n: nat, i: nat)
    requires WellFormed(h) && k < |h.blocks| && h.blocks[k].used && n <= h.blocks[k].Room()
    requires h.blocks[k].Room() - n <= h.usedMem
    requires i < |ShrinkAt(h, k, n).blocks| && !ShrinkAt(h, k, n).blocks[i].used
    ensures var b := ShrinkAt(h, k, n).blocks[i];
            b.start == h.blocks[k].start + HEADER + n || (b in h.blocks && !b.used && b.start != h.blocks[k].start)
  {
    ShrunkStart(h.blocks, k, n, i);
    AllOrdered(h.blocks, h.End());
  }

  /** Where lfree is after a shrink. */
  lemma LfreeAfterShrink(h: Heap, k: nat, n: nat)
    requires WellFormed(h) && k < |h.blocks| && h.blocks[k].used && n <= h.blocks[k].Room()
        && h.blocks[k].len > HEADER + n
    requires h.blocks[k].Room() - n <= h.usedMem
    ensures ShrinkAt(h, k, n).lfree
         == if NextIsFree(h.blocks, k) && h.lfree == h.blocks[k + 1].start
            then h.blocks[k].start + HEADER + n else h.lfree
  {
    var split := SplitBlock(h.blocks, k, n);
    assert k + 1 < |h.blocks| ==> split[k + 2] == h.blocks[k + 1];
    assert split[k].used && PlugForward(split, k + 1)[k] == split[k];
  }

  lemma RemainderIsFree(h: Heap, k: nat, n: nat)
    requires k < |h.blocks| && h.blocks[k].used && n <= h.blocks[k].Room() && h.blocks[k].Room() - n <= h.usedMem
    ensures k + 1 < |ShrinkAt(h, k, n).blocks|
    ensures var b := ShrinkAt(h, k, n).blocks[k + 1]; b.start == h.blocks[k].start + HEADER + n && !b.used
  {
    assert SplitBlock(h.blocks, k, n)[k].used;
  }

  /** After an in-place shrink of block k, lfree is still the lowest free block exactly when
      it lay below block k or names the free block after it. */
  lemma ShrinkMayHideItsRemainder(h: Heap, k: nat, n: nat)
    requires WellFormed(h) && LfreeIsLowest(h) && k < |h.blocks| && h.blocks[k].used && n % 4 == 0
        && Shrinks(h.blocks[k], n)
    requires h.blocks[k].Room() - n <= h.usedMem
    ensures LfreeIsLowest(ShrinkAt(h, k, n)) <==>
              h.lfree < h.blocks[k].start || (NextIsFree(h.blocks, k) && h.lfree == h.blocks[k + 1].start)
  {
    var r := ShrinkAt(h, k, n);
    LfreeAfterShrink(h, k, n);
    RemainderIsFree(h, k, n);
    LfreeOutsideUsed(h, k);
    hide ShrinkAt, WellFormed;
    if h.lfree < h.blocks[k].start || (NextIsFree(h.blocks, k) && h.lfree == h.blocks[k + 1].start) {
      forall i | 0 <= i < |r.blocks| && !r.blocks[i].used
        ensures r.lfree <= r.blocks[i].start
      {
        FreeAfterShrink(h, k, n, i);
      }
    }
  }

  lemma LfreeOutsideUsed(h: Heap, k: nat)
    requires WellFormed(h) && k < |h.blocks| && h.blocks[k].used
    ensures h.lfree < h.blocks[k].start || h.blocks[k].Limit() <= h.lfree
    ensures NextIsFree(h.blocks, k) ==> h.blocks[k].Limit() <= h.blocks[k + 1].start
  {
    AllOrdered(h.blocks, h.End());
  }

  // ----- Regions -----

  /** RT_ALIGN covers the size it is given exactly when the addition does not wrap. */
  lemma AlignCovers(request: nat)
    requires request < WORD
    ensures request <= RtAlign(request) <==> request <= WORD - 4
    ensures RtAlign(WORD - 1) == 0
  {}

  /** A granted request gets an aligned region of at least the aligned size and less than 24
      bytes more than it searched for, inside the heap and apart from every header and region
      that was in use. */
  lemma GrantedRegionIsFresh(h: Heap, request: nat) returns (g: Block)
    requires WellFormed(h) && Malloc(h, request).1.Some?
    ensures UsedBlocks(Malloc(h, request).0.blocks) == UsedBlocks(h.blocks) + {g}
    ensures Wanted(request) <= g.Room() < Wanted(request) + 24
    ensures Malloc(h, request).1.value == g.start + HEADER && Malloc(h, request).1.value % 4 == 0
    ensures Malloc(h, request).1.value + RtAlign(request) <= g.Limit() <= h.End()
    ensures forall b :: b in UsedBlocks(h.blocks) ==> Disjoint(b, g)
  {
    var k, s := Chosen(h, request), Wanted(request);
    g := Granted(h, k, s);
    UsedAfterMalloc(h, k, s);
    BlockInside(h, k);
    hide WellFormed, UsedBlocks, MallocAt, Disjoint;
  }

  lemma BlockInside(h: Heap, k: nat)
    requires WellFormed(h) && k < |h.blocks|
    ensures h.blocks[k].start % 4 == 0 && h.blocks[k].Limit() <= h.End()
  {
    AllOrdered(h.blocks, h.End());
  }

  // ----- Freeing everything -----

  ghost predicate DistinctLive(h: Heap, ps: seq<int>) {
    && (forall i :: 0 <= i < |ps| ==> Live(h, ps[i]))
    && (forall i, j :: 0 <= i < j < |ps| ==> ps[i] != ps[j])
  }

  /** Freeing one pointer ends its life and no other. */
  lemma FreeEndsOneLife(h: Heap, p: int, q: int)
    requires WellFormed(h) && Live(h, p)
    ensures Live(Free(h, Some(p)), q) <==> Live(h, q) && q != p
  {
    var k := BlockOf(h, p);
    var h' := Free(h, Some(p));
    FreeKeepsWellFormed(h, k);
    UsedAfterFree(h, k);
    LiveIffOwned(h, q);
    LiveIffOwned(h', q);
    OwnedByStart(h, h.blocks[k]);
    hide WellFormed, Live, UsedBlocks, FreeAt, OwnedAt;
    OwnedAfterRemoval(UsedBlocks(h.blocks), h.blocks[k], q);
  }

  lemma OwnedAfterRemoval(s: set<Block>, a: Block, q: int)
    requires a in s && forall b :: b in s && b.start == a.start ==> b == a
    ensures OwnedAt(s - {a}, q) <==> OwnedAt(s, q) && q != a.start + HEADER
  {
    if OwnedAt(s, q) && q != a.start + HEADER {
      var b :| b in s && b.start + HEADER == q;
      assert b in s - {a};
    }
  }

  /** No two owned regions start at the same place. */
  lemma OwnedByStart(h: Heap, a: Block)
    requires WellFormed(h) && a in h.blocks && a.used
    ensures a in UsedBlocks(h.blocks)
    ensures forall b :: b in UsedBlocks(h.blocks) && b.start == a.start ==> b == a
  {
    AllOrdered(h.blocks, h.End());
  }

  ghost function FreeAll(h: Heap, ps: seq<int>): (h': Heap)
    requires WellFormed(h) && DistinctLive(h, ps)
    ensures WellFormed(h') && h'.size == h.size
    decreases |ps|
  {
    if ps == [] then h
    else
      FreeLeavesRestLive(h, ps);
      FreeAll(Free(h, Some(ps[0])), ps[1..])
  }

  // ----- What a reallocation leaves -----

  /** A successful rt_realloc of a live block leaves its caller one region with room for the
      request in place of the old one, and the pointer to it; the others stay as they are. A
      failed one changes nothing. */
  lemma ResizeReplacesOneRegion(h: Heap, k: nat, n: nat) returns (g: Block)
    requires WellFormed(h) && k < |h.blocks| && h.blocks[k].used && n % 4 == 0 && n < WORD
    ensures Resize(h, k, n).1 == None ==> Resize(h, k, n).0 == h
    ensures Resize(h, k, n).1.Some? ==>
              var (r, p) := Resize(h, k, n);
              && p == Some(g.start + HEADER) && g.Room() >= n
              && UsedBlocks(r.blocks) == UsedBlocks(h.blocks) - {h.blocks[k]} + {g}
              && (forall b :: b in UsedBlocks(h.blocks) && b != h.blocks[k] ==> Disjoint(b, g))
  {
    g := h.blocks[k];
    if g.Room() == n {
      OwnedApart(h, g);
    } else if Shrinks(g, n) {
      ShrinkKeepsWellFormed(h, k, n);
      UsedAfterShrink(h, k, n);
      OwnedApart(h, g);
      g := Block(g.start, HEADER + n, true);
    } else if Malloc(h, n).1.Some? {
      g := MoveReplacesOneRegion(h, k, n);
    }
  }

  /** The pointer rt_realloc returns for a live one is live and has room for the request. */
  lemma ReallocGivesALiveRegion(h: Heap, p: int, request: nat)
    requires WellFormed(h) && Live(h, p) && request < WORD
    ensures var (r, q) := Realloc(h, Some(p), request);
            && (q == None ==> r == h)
            && (q.Some? ==> Live(r, q.value) && r.blocks[BlockOf(r, q.value)].Room() >= RtAlign(request))
  {
    var n, k := RtAlign(request), BlockOf(h, p);
    AlignedSize(request);
    if n <= h.size {
      var g := ResizeReplacesOneRegion(h, k, n);
      hide WellFormed, UsedBlocks, Live, BlockOf, Resize, Disjoint;
      var (r, q) := Realloc(h, Some(p), request);
      if q.Some? {
        assert g in UsedBlocks(r.blocks);
        BlockOfOwned(r, g);
      }
    }
  }

  /** rt_realloc(RT_NULL, request) answers with the region rt_malloc grants for the request,
      and otherwise changes nothing. */
  lemma ReallocOfNull(h: Heap, request: nat) returns (g: Block)
    requires WellFormed(h) && request < WORD
    ensures var (r, q) := Realloc(h, None, request);
            && (q == None ==> r == h)
            && (q.Some? ==>
                  && q.value == g.start + HEADER && g.Room() >= RtAlign(request) && g.Limit() <= h.End()
                  && UsedBlocks(r.blocks) == UsedBlocks(h.blocks) + {g}
                  && forall b :: b in UsedBlocks(h.blocks) ==> Disjoint(b, g))
    ensures Realloc(h, None, request).1.Some? <==> Malloc(h, request).1.Some? && request <= WORD - 4
  {
    g := Block(0, HEADER, true);
    NullAsMalloc(h, request);
    if Realloc(h, None, request).1.Some? {
      g := GrantedRegionIsFresh(h, request);
    }
  }

  lemma NullAsMalloc(h: Heap, request: nat)
    requires WellFormed(h) && request < WORD
    ensures Realloc(h, None, request) == if request <= WORD - 4 then Malloc(h, request) else (h, None)
  {
    hide WellFormed, Grants, Chosen;
    AlignedSize(request);
    SameSearch(h, RtAlign(request), request);
    GrantsByAlignedSize(h, request);
  }

  lemma SameSearch(h: Heap, a: nat, b: nat)
    requires RtAlign(a) == RtAlign(b)
    ensures Wanted(a) == Wanted(b) && Chosen(h, a) == Chosen(h, b)
  {}

  lemma GrantsByAlignedSize(h: Heap, request: nat)
    requires request < WORD
    ensures Grants(h, RtAlign(request)) <==> Grants(h, request) && request <= WORD - 4
    ensures RtAlign(request) > h.size ==> !Grants(h, request)
  {
    hide Chosen;
    AlignedSize(request);
    SameSearch(h, RtAlign(request), request);
  }

  /** rt_realloc of a pointer outside the region hands it back unchanged, unless the size
      exceeds the heap's. */
  lemma ReallocOfForeign(h: Heap, p: int, request: nat)
    requires WellFormed(h) && (p < 0 || h.End() <= p)
    ensures Realloc(h, Some(p), request) == (h, if RtAlign(request) <= h.size then Some(p) else None)
  {
    NotLiveOutside(h, p);
  }

  lemma NotLiveOutside(h: Heap, p: int)
    requires WellFormed(h) && (p < 0 || h.End() <= p)
    ensures !Live(h, p)
  {
    if Live(h, p) {
      BlockInside(h, BlockOf(h, p));
      CandidatesAreOrdered(h, BlockOf(h, p), |h.blocks| - 1);
    }
  }

  /** rt_free of a pointer that is not live changes nothing. */
  lemma FreeOfForeign(h: Heap, p: Option<int>)
    requires WellFormed(h) && (p.Some? ==> p.value < 0 || h.End() <= p.value)
    ensures Free(h, p) == h
  {
    if p.Some? {
      NotLiveOutside(h, p.value);
    }
  }

  /** rt_realloc of a live pointer hands the same pointer back exactly when the room is the
      size asked for or exceeds it by more than 24 bytes, and the room is then that size. It
      fails exactly when otherwise rt_malloc refuses. */
  lemma ReallocKeepsPointerIff(h: Heap, p: int, request: nat)
    requires WellFormed(h) && Live(h, p) && request < WORD
    ensures var (r, q) := Realloc(h, Some(p), request);
            var n, room := RtAlign(request), h.blocks[BlockOf(h, p)].Room();
            && (q == Some(p) <==> n <= h.size && (room == n || n + 24 < room))
            && (q == Some(p) ==> Live(r, p) && r.blocks[BlockOf(r, p)].Room() == n)
            && (q == None <==> n > h.size || (room != n && room <= n + 24 && Malloc(h, n).1 == None))
  {
    hide WellFormed, UsedBlocks, Live, BlockOf, Resize, Disjoint, Shrinks, Realloc;
    AlignedSize(request);
    ReallocOfLive(h, p, request);
    var n, k := RtAlign(request), BlockOf(h, p);
    if n <= h.size {
      ResizeKeepsPointerIff(h, k, n);
      var (r, q) := Resize(h, k, n);
      if q == Some(p) {
        BlockOfOwned(r, Block(h.blocks[k].start, HEADER + n, true));
      }
    }
  }

  lemma ReallocOfLive(h: Heap, p: int, request: nat)
    requires WellFormed(h) && Live(h, p)
    ensures BlockOf(h, p) < |h.blocks| && h.blocks[BlockOf(h, p)].used && RtAlign(request) % 4 == 0
    ensures Realloc(h, Some(p), request)
         == if RtAlign(request) <= h.size then Resize(h, BlockOf(h, p), RtAlign(request)) else (h, None)
  {}

  lemma ResizeKeepsPointerIff(h: Heap, k: nat, n: nat)
    requires WellFormed(h) && k < |h.blocks| && h.blocks[k].used && n % 4 == 0 && n < WORD
    ensures var (r, q) := Resize(h, k, n);
            var b := h.blocks[k];
            && (q == Some(b.start + HEADER) <==> b.Room() == n || n + 24 < b.Room())
            && (q == Some(b.start + HEADER) ==> Block(b.start, HEADER + n, true) in UsedBlocks(r.blocks))
            && (q == None <==> b.Room() != n && b.Room() <= n + 24 && Malloc(h, n).1 == None)
  {
    var b := h.blocks[k];
    if b.Room() == n {
      assert b == Block(b.start, HEADER + n, true);
    } else if n + 24 < b.Room() {
      ShrinkKeepsWellFormed(h, k, n);
      UsedAfterShrink(h, k, n);
    } else if Malloc(h, n).1.Some? {
      var g := MoveReplacesOneRegion(h, k, n);
      assert b in UsedBlocks(h.blocks);
      ApartStartsApart(b, g);
    }
  }

  lemma ApartStartsApart(b: Block, g: Block)
    requires Disjoint(b, g) && b.len > 0 && g.len > 0
    ensures b.start != g.start
  {}

  lemma OwnedApart(h: Heap, a: Block)
    requires WellFormed(h) && a in UsedBlocks(h.blocks)
    ensures forall b :: b in UsedBlocks(h.blocks) && b != a ==> Disjoint(b, a)
  {
    forall b | b in UsedBlocks(h.blocks) && b != a
      ensures Disjoint(b, a)
    {
      OwnedRegionsAreDisjoint(h, b, a);
    }
  }

  lemma MoveReplacesOneRegion(h: Heap, k: nat, n: nat) returns (g: Block)
    requires WellFormed(h) && k < |h.blocks| && h.blocks[k].used && n % 4 == 0 && n < WORD
    requires Malloc(h, n).1.Some?
    ensures var (r, p) := Move(h, k, n);
            && p == Some(g.start + HEADER) && g.Room() >= n
            && UsedBlocks(r.blocks) == UsedBlocks(h.blocks) - {h.blocks[k]} + {g}
    ensures forall b :: b in UsedBlocks(h.blocks) ==> Disjoint(b, g)
  {
    hide WellFormed, UsedBlocks, MallocAt, FreeAt, Chosen, Disjoint, Grants;
    AlignedSize(n);
    g := GrantedRegionIsFresh(h, n);
    var kg, grown := Moved(h, k, n), Malloc(h, n).0;
    UsedAfterFree(grown, kg);
    NotItsOwnRegion(h, k, g);
  }

  lemma NotItsOwnRegion(h: Heap, k: nat, g: Block)
    requires WellFormed(h) && k < |h.blocks| && h.blocks[k].used
    requires forall b :: b in UsedBlocks(h.blocks) ==> Disjoint(b, g)
    ensures h.blocks[k] in UsedBlocks(h.blocks) && h.blocks[k] != g
  {
    assert h.blocks[k] in UsedBlocks(h.blocks);
  }

  lemma FreeLeavesRestLive(h: Heap, ps: seq<int>)
    requires WellFormed(h) && DistinctLive(h, ps) && ps != []
    ensures DistinctLive(Free(h, Some(ps[0])), ps[1..])
  {
    forall i | 0 <= i < |ps| - 1
      ensures Live(Free(h, Some(ps[0])), ps[1..][i])
    {
      FreeEndsOneLife(h, ps[0], ps[i + 1]);
    }
  }

  lemma TwoBlocksHaveAUsedOne(bs: seq<Block>)
    requires NoFreeNeighbours(bs) && |bs| > 1
    ensures exists i :: 0 <= i < |bs| && bs[i].used
  {
    assert bs[0].used || bs[0 + 1].used;
  }

  /** A heap without used blocks is one free block. */
  lemma NothingUsedMeansOneBlock(h: Heap)
    requires WellFormed(h) && forall i :: 0 <= i < |h.blocks| ==> !h.blocks[i].used
    ensures h.blocks == [Block(0, h.End(), false)] && h.usedMem == 0
    ensures h.lfree == 0 || h.lfree == h.End()
  {
    if |h.blocks| > 1 {
      TwoBlocksHaveAUsedOne(h.blocks);
      assert false;
    }
    assert h.blocks == [h.blocks[0]];
    ExtentOne(h.blocks[0], true);
  }

  lemma FreeMovesLfreeInside(h: Heap, p: int)
    requires WellFormed(h) && Live(h, p)
    ensures Free(h, Some(p)).lfree < h.End()
  {
    var k := BlockOf(h, p);
    AllOrdered(h.blocks, h.End());
    var marked := MarkBlock(h.blocks, k, false);
    assert PlugForward(marked, k)[k].start == h.blocks[k].start;
  }

  lemma {:induction false} FreeAllFrees(h: Heap, ps: seq<int>, q: int)
    requires WellFormed(h) && DistinctLive(h, ps)
    ensures Live(FreeAll(h, ps), q) <==> Live(h, q) && q !in ps
    ensures ps != [] ==> FreeAll(h, ps).lfree < h.End()
    decreases |ps|
  {
    if ps != [] {
      var h1 := Free(h, Some(ps[0]));
      FreeLeavesRestLive(h, ps);
      FreeEndsOneLife(h, ps[0], q);
      FreeMovesLfreeInside(h, ps[0]);
      FreeAllFrees(h1, ps[1..], q);
      assert q in ps <==> q == ps[0] || q in ps[1..];
      if ps[1..] == [] {
        assert FreeAll(h1, ps[1..]) == h1;
      }
    }
  }

  /** ps lists every live pointer once. */
  ghost predicate ListsAllLive(h: Heap, ps: seq<int>) {
    DistinctLive(h, ps) && forall p :: Live(h, p) ==> p in ps
  }

  lemma NoneLeft(h: Heap, ps: seq<int>, p: int)
    requires WellFormed(h) && DistinctLive(h, ps) && ListsAllLive(h, ps)
    ensures !Live(FreeAll(h, ps), p)
  {
    hide FreeAll, Live, WellFormed, DistinctLive;
    FreeAllFrees(h, ps, p);
  }

  /** Freeing all live pointers, in any order, restores a single free block. */
  lemma FreeingEverythingRestoresOneBlock(h: Heap, ps: seq<int>)
    requires WellFormed(h) && DistinctLive(h, ps) && ListsAllLive(h, ps) && ps != []
    ensures FreeAll(h, ps).blocks == [Block(0, h.End(), false)]
    ensures FreeAll(h, ps).usedMem == 0 && FreeAll(h, ps).lfree == 0
  {
    hide FreeAll, WellFormed, Live, DistinctLive, ListsAllLive;
    var r := FreeAll(h, ps);
    FreeAllFrees(h, ps, 0);
    forall p
      ensures !Live(r, p)
    {
      NoneLeft(h, ps, p);
    }
    NothingLiveMeansNothingUsed(r);
    NothingUsedMeansOneBlock(r);
  }

  lemma NothingLiveMeansNothingUsed(h: Heap)
    requires WellFormed(h) && forall p :: !Live(h, p)
    ensures forall i :: 0 <= i < |h.blocks| ==> !h.blocks[i].used
  {
    forall i | 0 <= i < |h.blocks|
      ensures !h.blocks[i].used
    {
      if h.blocks[i].used {
        UsedBlockIsLive(h, i);
      }
    }
  }

  lemma UsedBlockIsLive(h: Heap, i: nat)
    requires WellFormed(h) && i < |h.blocks| && h.blocks[i].used
    ensures Live(h, h.blocks[i].start + HEADER)
  {
    BlockOfOwned(h, h.blocks[i]);
  }
}
