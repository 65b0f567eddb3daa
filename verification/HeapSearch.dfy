/** When the search of rt_malloc ends. */
module HeapSearch {
  import opened Wrappers
  import opened HeapMemory
  import opened HeapLayout
  import opened HeapInvariant
  import opened HeapChain
  import opened HeapCalls
  import opened KernelHeap

  /** Where the search goes from p: the next header, and from the closing header to itself. */
  function NextHeader(h: Heap, p: nat): nat {
    var k := IndexOf(h.blocks, p);
    if k < |h.blocks| then h.blocks[k].Limit() else h.End()
  }

  /** The header the search looks at after n turns, if it has not stopped before. */
  function Visited(h: Heap, n: nat): nat {
    if n == 0 then h.lfree else NextHeader(h, Visited(h, n - 1))
  }

  predicate GrantsAt(h: Heap, p: nat, s: nat) {
    var k := IndexOf(h.blocks, p);
    k < |h.blocks| && Fits(h.blocks[k], s)
  }

  /** The search for s bytes stops at p: the unsigned bound is reached, or the block fits. */
  predicate StopsAt(h: Heap, p: nat, s: nat) {
    p >= (h.size - s) % WORD || GrantsAt(h, p, s)
  }

  ghost predicate SearchEnds(h: Heap, s: nat) {
    exists n: nat :: StopsAt(h, Visited(h, n), s)
  }

  ghost predicate MallocEnds(h: Heap, request: nat) {
    request == 0 || RtAlign(request) > h.size || SearchEnds(h, Wanted(request))
  }

  ghost predicate ReallocEnds(h: Heap, p: Option<int>, request: nat) {
    Reallocates(h, p, request) ==> MallocEnds(h, RtAlign(request))
  }

  /** The walk is what following next in memory gives. */
  lemma NextHeaderIsRead(h: Heap, m: seq<byte>, n: nat)
    requires WellFormed(h) && Represents(m, h.blocks, h.End())
    ensures Visited(h, n) + HEADER <= |m| && HeaderAt(m, Visited(h, n)).next == Visited(h, n + 1)
  {
    VisitsHeaders(h, n);
    var k := IndexOf(h.blocks, Visited(h, n));
    if k < |h.blocks| {
      HeaderOfBlock(m, h.blocks, h.End(), k);
    } else {
      ClosingHeaderReads(m, h.blocks, h.End());
    }
  }

  lemma {:induction false} VisitsHeaders(h: Heap, n: nat)
    requires WellFormed(h)
    ensures Visited(h, n) == h.End() || IndexOf(h.blocks, Visited(h, n)) < |h.blocks|
    ensures IndexOf(h.blocks, Visited(h, n)) == |h.blocks| ==> Visited(h, n) == h.End()
  {
    hide NoFreeNeighbours, LastHasRoom, Extent;
    if n == 0 {
      LfreeIsABlock(h);
    } else {
      VisitsHeaders(h, n - 1);
      var k := IndexOf(h.blocks, Visited(h, n - 1));
      AllOrdered(h.blocks, h.End());
      if k + 1 < |h.blocks| {
        IndexOfStart(h.blocks, h.End(), k + 1);
      }
    }
  }

  /** On a payload below 12 bytes there is one block, and the walk is stuck at the closing
      header after one turn. */
  lemma SmallHeapIsOneBlock(h: Heap)
    requires WellFormed(h) && h.size < MIN_SIZE
    ensures |h.blocks| == 1 && h.blocks[0].start == 0 && h.blocks[0].Room() == h.size
  {
    if |h.blocks| > 1 {
      TwoBlocksNeedTwoHeaders(h.blocks, h.End());
    }
  }

  lemma TwoBlocksNeedTwoHeaders(bs: seq<Block>, end: nat)
    requires Tiles(bs, end) && |bs| > 1
    ensures end >= 2 * HEADER
  {
    AllOrdered(bs, end);
    assert bs[0 + 1].start == bs[0].Limit();
  }

  lemma {:induction false} SmallHeapVisits(h: Heap, n: nat)
    requires WellFormed(h) && h.size < MIN_SIZE
    ensures Visited(h, n) == 0 || Visited(h, n) == h.End()
  {
    SmallHeapIsOneBlock(h);
    if n > 0 {
      SmallHeapVisits(h, n - 1);
    }
  }

  /** On a payload below 12 bytes the search never ends, for any request it is made for: the
      unsigned bound wraps, the one block does not fit, and the closing header leads to itself. */
  lemma SmallHeapSearchNeverEnds(h: Heap, request: nat)
    requires WellFormed(h) && 0 < request && RtAlign(request) <= h.size < MIN_SIZE
    ensures !SearchEnds(h, Wanted(request))
  {
    var s := Wanted(request);
    SmallHeapIsOneBlock(h);
    assert s == MIN_SIZE && (h.size - s) % WORD == WORD + h.size - s;
    forall n: nat
      ensures !StopsAt(h, Visited(h, n), s)
    {
      SmallHeapVisits(h, n);
    }
  }

  /** Where the bound does not wrap, the walk climbs from header to header and stops. */
  lemma {:induction false} ClimbsToTheBound(h: Heap, s: nat, n: nat) returns (m: nat)
    requires WellFormed(h) && s <= h.size < WORD
    ensures StopsAt(h, Visited(h, m), s)
    decreases h.End() - Visited(h, n)
  {
    VisitsHeaders(h, n);
    var p := Visited(h, n);
    m := n;
    if !StopsAt(h, p, s) {
      AllOrdered(h.blocks, h.End());
      assert p < Visited(h, n + 1) <= h.End();
      m := ClimbsToTheBound(h, s, n + 1);
    }
  }

  /** rt_malloc ends if and only if the request is refused before the search or the payload
      has at least 12 bytes. */
  lemma MallocEndsIff(h: Heap, request: nat)
    requires WellFormed(h) && h.size < WORD && request < WORD
    ensures MallocEnds(h, request) <==> Searchable(h, request)
  {
    hide StopsAt, WellFormed;
    if request != 0 && RtAlign(request) <= h.size {
      if h.size < MIN_SIZE {
        SmallHeapSearchNeverEnds(h, request);
      } else {
        var n := ClimbsToTheBound(h, Wanted(request), 0);
      }
    }
  }

  /** rt_realloc ends if and only if it does not allocate or that allocation ends. */
  lemma ReallocEndsIff(h: Heap, p: Option<int>, request: nat)
    requires WellFormed(h) && h.size < WORD && request < WORD && Acceptable(h, p)
    ensures ReallocEnds(h, p, request) <==> Resizable(h, p, request)
  {
    AlignedSize(request);
    MallocEndsIff(h, RtAlign(request));
  }
}
