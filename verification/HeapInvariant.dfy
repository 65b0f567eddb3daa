/** Every call keeps the heap well formed. */
module HeapInvariant {
  import opened HeapMemory
  import opened HeapLayout

  // ----- Order of the blocks -----

  lemma {:induction false} Ordered(bs: seq<Block>, end: nat, i: nat, j: nat)
    requires Tiles(bs, end) && i < j < |bs|
    ensures bs[i].Limit() <= bs[j].start
    decreases j - i
  {
    if i + 1 < j {
      Ordered(bs, end, i, j - 1);
      assert bs[j - 1 + 1].start == bs[j - 1].Limit();
    } else {
      assert bs[i + 1].start == bs[i].Limit();
    }
  }

  /** Blocks never overlap and all lie in the region. */
  lemma AllOrdered(bs: seq<Block>, end: nat)
    requires Tiles(bs, end)
    ensures forall i, j :: 0 <= i < j < |bs| ==> bs[i].Limit() <= bs[j].start
    ensures forall i :: 0 <= i < |bs| ==> bs[i].Limit() <= end
  {
    forall i, j | 0 <= i < j < |bs|
      ensures bs[i].Limit() <= bs[j].start
    {
      Ordered(bs, end, i, j);
    }
  }

  lemma IndexOfStart(bs: seq<Block>, end: nat, i: nat)
    requires Tiles(bs, end) && i < |bs|
    ensures IndexOf(bs, bs[i].start) == i
  {
    AllOrdered(bs, end);
  }

  // ----- Tiling -----

  lemma SplitTiles(bs: seq<Block>, end: nat, k: nat, size: nat)
    requires Tiles(bs, end) && k < |bs| && size % 4 == 0 && bs[k].len >= HEADER + size + HEADER
    ensures Tiles(SplitBlock(bs, k, size), end)
  {
    var r := SplitBlock(bs, k, size);
    forall i | 0 <= i < |r| - 1
      ensures r[i + 1].start == r[i].Limit()
    {
      if i > k + 1 {
        assert r[i] == bs[i - 1] && r[i + 1] == bs[i - 1 + 1];
      } else if i == k + 1 {
        assert r[i + 1] == bs[k + 1];
      } else if i < k {
        assert r[i] == bs[i] && r[i + 1].start == bs[i + 1].start;
      }
    }
  }

  lemma MarkTiles(bs: seq<Block>, end: nat, k: nat, used: bool)
    requires Tiles(bs, end) && k < |bs|
    ensures Tiles(MarkBlock(bs, k, used), end)
  {}

  lemma JoinTiles(bs: seq<Block>, end: nat, k: nat)
    requires Tiles(bs, end) && k + 1 < |bs|
    ensures Tiles(JoinNext(bs, k), end)
  {
    var r := JoinNext(bs, k);
    forall i | 0 <= i < |r| - 1
      ensures r[i + 1].start == r[i].Limit()
    {
      if i > k {
        assert r[i] == bs[i + 1] && r[i + 1] == bs[i + 1 + 1];
      } else if i == k {
        assert r[i + 1] == bs[k + 1 + 1];
      } else {
        assert r[i] == bs[i] && r[i + 1].start == bs[i + 1].start;
      }
    }
  }

  lemma PlugTiles(bs: seq<Block>, end: nat, k: nat)
    requires Tiles(bs, end) && k < |bs|
    ensures Tiles(Plug(bs, k), end)
  {
    hide Tiles, JoinNext;
    if NextIsFree(bs, k) {
      JoinTiles(bs, end, k);
    }
    if PreviousIsFree(PlugForward(bs, k), k) {
      JoinTiles(PlugForward(bs, k), end, k - 1);
    }
  }

  // ----- Coalescing -----

  lemma JoinAt(bs: seq<Block>, k: nat, i: nat)
    requires k + 1 < |bs| && i < |bs| - 1
    ensures i < k ==> JoinNext(bs, k)[i] == bs[i]
    ensures i == k ==> JoinNext(bs, k)[i] == bs[k].(len := bs[k].len + bs[k + 1].len)
    ensures i > k ==> JoinNext(bs, k)[i] == bs[i + 1]
  {}

  lemma PlugForwardNeighbours(bs: seq<Block>, k: nat)
    requires k < |bs| && !bs[k].used && NoFreeNeighboursBut(bs, k)
    ensures NoFreeNeighboursBut(PlugForward(bs, k), k) && !NextIsFree(PlugForward(bs, k), k)
    ensures !PlugForward(bs, k)[k].used
  {
    if NextIsFree(bs, k) {
      var r := JoinNext(bs, k);
      assert k + 2 < |bs| ==> bs[k + 1].used || bs[k + 1 + 1].used;
      forall i | 0 <= i < |r| - 1 && i != k && i + 1 != k
        ensures r[i].used || r[i + 1].used
      {
        JoinAt(bs, k, i);
        JoinAt(bs, k, i + 1);
        assert i > k ==> bs[i + 1].used || bs[i + 1 + 1].used;
      }
    }
  }

  lemma PlugBackwardNeighbours(bs: seq<Block>, k: nat)
    requires k < |bs| && !bs[k].used && NoFreeNeighboursBut(bs, k) && !NextIsFree(bs, k)
    ensures NoFreeNeighbours(PlugBackward(bs, k))
  {
    if PreviousIsFree(bs, k) {
      var r := JoinNext(bs, k - 1);
      assert k >= 2 ==> bs[k - 2].used;
      forall i | 0 <= i < |r| - 1
        ensures r[i].used || r[i + 1].used
      {
        JoinAt(bs, k - 1, i);
        JoinAt(bs, k - 1, i + 1);
        assert i > k - 1 ==> bs[i + 1].used || bs[i + 1 + 1].used;
      }
    }
  }

  /** plug_holes removes the free neighbours of a free block. */
  lemma PlugLeavesNoFreeNeighbours(bs: seq<Block>, k: nat)
    requires k < |bs| && !bs[k].used && NoFreeNeighboursBut(bs, k)
    ensures NoFreeNeighbours(Plug(bs, k))
  {
    PlugForwardNeighbours(bs, k);
    PlugBackwardNeighbours(PlugForward(bs, k), k);
  }

  lemma PlugLastHasRoom(bs: seq<Block>, k: nat)
    requires k < |bs| && !bs[k].used && LastHasRoom(bs)
    ensures LastHasRoom(Plug(bs, k))
  {}

  // ----- Accounting -----

  lemma {:induction false} ExtentConcat(a: seq<Block>, b: seq<Block>, used: bool)
    ensures Extent(a + b, used) == Extent(a, used) + Extent(b, used)
    decreases |a|
  {
    if a == [] {
      assert a + b == b;
    } else {
      assert (a + b)[1..] == a[1..] + b;
      ExtentConcat(a[1..], b, used);
    }
  }

  lemma ExtentThree(a: seq<Block>, b: seq<Block>, c: seq<Block>, used: bool)
    ensures Extent(a + b + c, used) == Extent(a, used) + Extent(b, used) + Extent(c, used)
  {
    ExtentConcat(a + b, c, used);
    ExtentConcat(a, b, used);
  }

  lemma ExtentOne(b: Block, used: bool)
    ensures Extent([b], used) == if b.used == used then b.len else 0
  {}

  lemma ExtentTwo(b: Block, c: Block, used: bool)
    ensures Extent([b, c], used) == Extent([b], used) + Extent([c], used)
  {
    assert [b, c][1..] == [c];
  }

  lemma ExtentAround(bs: seq<Block>, k: nat, used: bool)
    requires k < |bs|
    ensures Extent(bs, used) == Extent(bs[..k], used) + Extent([bs[k]], used) + Extent(bs[k + 1..], used)
  {
    assert bs == bs[..k] + [bs[k]] + bs[k + 1..];
    ExtentThree(bs[..k], [bs[k]], bs[k + 1..], used);
  }

  lemma ExtentOfSplit(bs: seq<Block>, k: nat, size: nat, used: bool)
    requires k < |bs| && bs[k].len >= HEADER + size
    ensures Extent(SplitBlock(bs, k, size), used)
         == Extent(bs, used) - (if bs[k].used == used then bs[k].len else 0)
            + (if used then HEADER + size else bs[k].len - HEADER - size)
  {
    var b := bs[k];
    var b1, b2 := Block(b.start, HEADER + size, true), Block(b.start + HEADER + size, b.len - HEADER - size, false);
    ExtentAround(bs, k, used);
    ExtentThree(bs[..k], [b1, b2], bs[k + 1..], used);
    ExtentTwo(b1, b2, used);
    ExtentOne(b1, used);
    ExtentOne(b2, used);
    ExtentOne(b, used);
  }

  lemma ExtentOfMark(bs: seq<Block>, k: nat, flag: bool, used: bool)
    requires k < |bs|
    ensures Extent(MarkBlock(bs, k, flag), used)
         == Extent(bs, used) - (if bs[k].used == used then bs[k].len else 0) + (if flag == used then bs[k].len else 0)
  {
    var r := MarkBlock(bs, k, flag);
    ExtentAround(bs, k, used);
    ExtentAround(r, k, used);
    assert r[..k] == bs[..k] && r[k + 1..] == bs[k + 1..];
    ExtentOne(bs[k], used);
    ExtentOne(r[k], used);
  }

  lemma ExtentOfJoin(bs: seq<Block>, k: nat, used: bool)
    requires k + 1 < |bs| && bs[k].used == bs[k + 1].used
    ensures Extent(JoinNext(bs, k), used) == Extent(bs, used)
  {
    var joined := bs[k].(len := bs[k].len + bs[k + 1].len);
    ExtentAround(bs, k, used);
    ExtentAround(bs[k + 1..], 0, used);
    assert bs[k + 1..][1..] == bs[k + 2..] && bs[k + 1..][..0] == [];
    ExtentThree(bs[..k], [joined], bs[k + 2..], used);
    ExtentOne(bs[k], used);
    ExtentOne(bs[k + 1], used);
    ExtentOne(joined, used);
  }

  lemma ExtentOfPlug(bs: seq<Block>, k: nat, used: bool)
    requires k < |bs| && !bs[k].used
    ensures Extent(Plug(bs, k), used) == Extent(bs, used)
  {
    var forward := PlugForward(bs, k);
    assert !forward[k].used;
    if NextIsFree(bs, k) {
      ExtentOfJoin(bs, k, used);
    }
    if PreviousIsFree(forward, k) {
      ExtentOfJoin(forward, k - 1, used);
    }
  }

  lemma {:induction false} ExtentsOfAll(bs: seq<Block>)
    requires |bs| > 0 && forall i :: 0 <= i < |bs| - 1 ==> bs[i + 1].start == bs[i].Limit()
    ensures Extent(bs, true) + Extent(bs, false) == bs[|bs| - 1].Limit() - bs[0].start
    decreases |bs|
  {
    if |bs| > 1 {
      var rest := bs[1..];
      forall i | 0 <= i < |rest| - 1
        ensures rest[i + 1].start == rest[i].Limit()
      {
        assert bs[i + 1 + 1].start == bs[i + 1].Limit();
      }
      ExtentsOfAll(rest);
      assert bs[0 + 1].start == bs[0].Limit();
    }
  }

  /** Conservation: used and free extents together are the payload and one header. */
  lemma UsedAndFreeFillTheHeap(h: Heap)
    requires WellFormed(h)
    ensures h.usedMem + Extent(h.blocks, false) == h.size + HEADER
  {
    ExtentsOfAll(h.blocks);
  }

  lemma {:induction false} ExtentAtLeast(bs: seq<Block>, k: nat)
    requires k < |bs| && bs[k].used
    ensures bs[k].len <= Extent(bs, true)
  {
    ExtentAround(bs, k, true);
    ExtentOne(bs[k], true);
  }

  // ----- The lowest-free pointer -----

  /** The search for the next free block finds the lowest one at or after i. */
  lemma {:induction false} NextFreeIsLowest(bs: seq<Block>, i: nat, end: nat)
    requires Tiles(bs, end) && i <= |bs|
    ensures PointsAtFree(bs, NextFree(bs, i, end), end)
    ensures forall j :: i <= j < |bs| && !bs[j].used ==> NextFree(bs, i, end) <= bs[j].start
    decreases |bs| - i
  {
    AllOrdered(bs, end);
    if i < |bs| && bs[i].used {
      NextFreeIsLowest(bs, i + 1, end);
    }
  }

  lemma JoinPointsAtFree(bs: seq<Block>, k: nat, lfree: nat, end: nat)
    requires Tiles(bs, end) && k + 1 < |bs| && !bs[k].used && !bs[k + 1].used && PointsAtFree(bs, lfree, end)
    ensures PointsAtFree(JoinNext(bs, k), if lfree == bs[k + 1].start then bs[k].start else lfree, end)
  {
    AllOrdered(bs, end);
    if lfree != end {
      var i :| 0 <= i < |bs| && bs[i].start == lfree && !bs[i].used;
      var i' := if i <= k then i else i - 1;
      JoinAt(bs, k, i');
      assert JoinNext(bs, k)[i'].start == (if lfree == bs[k + 1].start then bs[k].start else lfree);
    }
  }

  lemma JoinIsLowest(bs: seq<Block>, k: nat, lfree: nat)
    requires k + 1 < |bs| && !bs[k].used && !bs[k + 1].used && IsLowest(bs, lfree) && bs[k].start <= bs[k + 1].start
    ensures IsLowest(JoinNext(bs, k), if lfree == bs[k + 1].start then bs[k].start else lfree)
  {
    forall i | 0 <= i < |bs| - 1 && !JoinNext(bs, k)[i].used
      ensures lfree <= JoinNext(bs, k)[i].start
    {
      JoinAt(bs, k, i);
    }
  }

  /** plug_holes moves lfree along when the block it names is taken in by a neighbour. */
  lemma PlugKeepsLfree(bs: seq<Block>, k: nat, lfree: nat, end: nat)
    requires Tiles(bs, end) && k < |bs| && !bs[k].used && PointsAtFree(bs, lfree, end)
    ensures PointsAtFree(Plug(bs, k), PlugLfree(bs, k, lfree), end)
    ensures IsLowest(bs, lfree) ==> IsLowest(Plug(bs, k), PlugLfree(bs, k, lfree))
  {
    hide PointsAtFree, IsLowest;
    var forward, lf := PlugForward(bs, k), LfreeForward(bs, k, lfree);
    if NextIsFree(bs, k) {
      AllOrdered(bs, end);
      JoinTiles(bs, end, k);
      JoinPointsAtFree(bs, k, lfree, end);
      if IsLowest(bs, lfree) {
        JoinIsLowest(bs, k, lfree);
      }
    }
    if PreviousIsFree(forward, k) {
      AllOrdered(forward, end);
      JoinPointsAtFree(forward, k - 1, lf, end);
      if IsLowest(bs, lfree) {
        JoinIsLowest(forward, k - 1, lf);
      }
    }
  }

  // ----- The calls keep the heap well formed -----

  lemma NeighboursAfterSplit(bs: seq<Block>, k: nat, size: nat)
    requires k < |bs| && bs[k].len >= HEADER + size && NoFreeNeighbours(bs)
    ensures NoFreeNeighboursBut(SplitBlock(bs, k, size), k + 1)
    ensures k + 1 < |bs| && bs[k + 1].used ==> NoFreeNeighbours(SplitBlock(bs, k, size))
    ensures k + 1 == |bs| ==> NoFreeNeighbours(SplitBlock(bs, k, size))
  {
    var r := SplitBlock(bs, k, size);
    forall i | 0 <= i < |r| - 1 && i != k + 1
      ensures r[i].used || r[i + 1].used
    {
      if i > k + 1 {
        assert r[i] == bs[i - 1] && r[i + 1] == bs[i - 1 + 1];
      } else if i + 1 < k {
        assert r[i] == bs[i] && r[i + 1] == bs[i + 1];
      }
    }
    if k + 1 < |bs| {
      assert r[k + 1 + 1] == bs[k + 1];
    }
  }

  lemma MarkKeepsLfree(bs: seq<Block>, k: nat, lfree: nat, end: nat)
    requires k < |bs| && PointsAtFree(bs, lfree, end) && lfree != bs[k].start
    ensures PointsAtFree(MarkBlock(bs, k, true), lfree, end)
    ensures IsLowest(bs, lfree) ==> IsLowest(MarkBlock(bs, k, true), lfree)
  {
    if lfree != end {
      var i :| 0 <= i < |bs| && bs[i].start == lfree && !bs[i].used;
      assert MarkBlock(bs, k, true)[i] == bs[i];
    }
  }

  lemma SplitAt(bs: seq<Block>, k: nat, size: nat, i: nat)
    requires k < |bs| && bs[k].len >= HEADER + size && i <= |bs|
    ensures i < k ==> SplitBlock(bs, k, size)[i] == bs[i]
    ensures i > k + 1 ==> SplitBlock(bs, k, size)[i] == bs[i - 1]
  {}

  lemma SplitKeepsLfree(bs: seq<Block>, k: nat, size: nat, lfree: nat, end: nat)
    requires k < |bs| && bs[k].len >= HEADER + size && PointsAtFree(bs, lfree, end)
    requires bs[k].used || lfree != bs[k].start
    ensures PointsAtFree(SplitBlock(bs, k, size), lfree, end)
    ensures !bs[k].used && IsLowest(bs, lfree) ==> IsLowest(SplitBlock(bs, k, size), lfree)
  {
    var r := SplitBlock(bs, k, size);
    if lfree != end {
      var i :| 0 <= i < |bs| && bs[i].start == lfree && !bs[i].used;
      var i' := if i < k then i else i + 1;
      SplitAt(bs, k, size, i');
      assert r[i'] == bs[i];
    }
    if !bs[k].used && IsLowest(bs, lfree) {
      forall i | 0 <= i < |r| && !r[i].used
        ensures lfree <= r[i].start
      {
        SplitAt(bs, k, size, i);
      }
    }
  }

  lemma UsedBelowLowest(bs: seq<Block>, k: nat, end: nat)
    requires Tiles(bs, end) && k < |bs| && IsLowest(bs, bs[k].start)
    ensures forall i :: 0 <= i < k ==> bs[i].used
  {
    AllOrdered(bs, end);
  }

  lemma MallocLfree(h: Heap, k: nat, size: nat)
    requires WellFormed(h) && k < |h.blocks| && Fits(h.blocks[k], size)
    requires Tiles(MallocAt(h, k, size).blocks, h.End())
    ensures LfreeIsFree(MallocAt(h, k, size))
    ensures LfreeIsLowest(h) ==> LfreeIsLowest(MallocAt(h, k, size))
  {
    var bs, bs' := h.blocks, MallocAt(h, k, size).blocks;
    if h.lfree == bs[k].start {
      NextFreeIsLowest(bs', k, h.End());
      if LfreeIsLowest(h) {
        UsedBelowLowest(bs, k, h.End());
        assert bs'[..k] == bs[..k];
        forall i | 0 <= i < k
          ensures bs'[i].used
        {
          assert bs'[..k][i] == bs[..k][i];
        }
      }
    } else if bs[k].Room() >= size + HEADER + MIN_SIZE {
      SplitKeepsLfree(bs, k, size, h.lfree, h.End());
    } else {
      MarkKeepsLfree(bs, k, h.lfree, h.End());
    }
  }

  lemma MallocKeepsWellFormed(h: Heap, k: nat, size: nat)
    requires WellFormed(h) && k < |h.blocks| && Fits(h.blocks[k], size) && size % 4 == 0 && size >= MIN_SIZE
    ensures WellFormed(MallocAt(h, k, size))
    ensures LfreeIsLowest(h) ==> LfreeIsLowest(MallocAt(h, k, size))
  {
    hide PointsAtFree, IsLowest, NextFree;
    var bs, b := h.blocks, h.blocks[k];
    assert k + 1 < |bs| ==> bs[k].used || bs[k + 1].used;
    if b.Room() >= size + HEADER + MIN_SIZE {
      SplitTiles(bs, h.End(), k, size);
      NeighboursAfterSplit(bs, k, size);
      ExtentOfSplit(bs, k, size, true);
    } else {
      MarkTiles(bs, h.End(), k, true);
      ExtentOfMark(bs, k, true, true);
    }
    MallocLfree(h, k, size);
  }

  /** A block sequence that is well formed but for free neighbours of block k. */
  ghost predicate NeedsPlug(bs: seq<Block>, k: nat, lfree: nat, end: nat) {
    && Tiles(bs, end) && k < |bs| && !bs[k].used
    && NoFreeNeighboursBut(bs, k) && LastHasRoom(bs) && PointsAtFree(bs, lfree, end)
  }

  lemma PlugCompletes(bs: seq<Block>, k: nat, lfree: nat, end: nat)
    requires NeedsPlug(bs, k, lfree, end)
    ensures Tiles(Plug(bs, k), end) && NoFreeNeighbours(Plug(bs, k)) && LastHasRoom(Plug(bs, k))
    ensures PointsAtFree(Plug(bs, k), PlugLfree(bs, k, lfree), end)
    ensures IsLowest(bs, lfree) ==> IsLowest(Plug(bs, k), PlugLfree(bs, k, lfree))
    ensures Extent(Plug(bs, k), true) == Extent(bs, true)
  {
    hide Plug, PlugLfree, Tiles, NoFreeNeighbours, NoFreeNeighboursBut, LastHasRoom, PointsAtFree, IsLowest, Extent;
    PlugTiles(bs, end, k);
    PlugLeavesNoFreeNeighbours(bs, k);
    PlugLastHasRoom(bs, k);
    PlugKeepsLfree(bs, k, lfree, end);
    ExtentOfPlug(bs, k, true);
  }

  lemma FreeLowersLfree(h: Heap, k: nat)
    requires WellFormed(h) && k < |h.blocks| && h.blocks[k].used
    ensures var b := h.blocks[k];
            var lfree := if b.start < h.lfree then b.start else h.lfree;
            && PointsAtFree(MarkBlock(h.blocks, k, false), lfree, h.End())
            && (LfreeIsLowest(h) ==> IsLowest(MarkBlock(h.blocks, k, false), lfree))
  {
    var b, marked := h.blocks[k], MarkBlock(h.blocks, k, false);
    AllOrdered(h.blocks, h.End());
    if b.start < h.lfree {
      assert marked[k].start == b.start && !marked[k].used;
    } else {
      var i :| 0 <= i < |h.blocks| && h.blocks[i].start == h.lfree && !h.blocks[i].used;
      assert marked[i] == h.blocks[i];
    }
  }

  lemma FreeKeepsWellFormed(h: Heap, k: nat)
    requires WellFormed(h) && k < |h.blocks| && h.blocks[k].used
    ensures h.blocks[k].len <= h.usedMem && WellFormed(FreeAt(h, k))
    ensures LfreeIsLowest(h) ==> LfreeIsLowest(FreeAt(h, k))
  {
    hide Plug, PlugLfree, Tiles, PointsAtFree, IsLowest, Extent;
    var bs, b := h.blocks, h.blocks[k];
    ExtentAtLeast(bs, k);
    var marked := MarkBlock(bs, k, false);
    MarkTiles(bs, h.End(), k, false);
    FreeLowersLfree(h, k);
    ExtentOfMark(bs, k, false, true);
    PlugCompletes(marked, k, if b.start < h.lfree then b.start else h.lfree, h.End());
  }

  lemma ShrinkKeepsWellFormed(h: Heap, k: nat, n: nat)
    requires WellFormed(h) && k < |h.blocks| && h.blocks[k].used && n % 4 == 0 && Shrinks(h.blocks[k], n)
    ensures h.blocks[k].Room() - n <= h.usedMem && WellFormed(ShrinkAt(h, k, n))
  {
    hide Plug, PlugLfree, Tiles, PointsAtFree, IsLowest, Extent;
    var bs, b := h.blocks, h.blocks[k];
    ExtentAtLeast(bs, k);
    var split := SplitBlock(bs, k, n);
    SplitTiles(bs, h.End(), k, n);
    NeighboursAfterSplit(bs, k, n);
    SplitKeepsLfree(bs, k, n, h.lfree, h.End());
    ExtentOfSplit(bs, k, n, true);
    PlugCompletes(split, k + 1, h.lfree, h.End());
  }

  lemma InitialHeapIsWellFormed(size: nat)
    requires size % 4 == 0
    ensures WellFormed(InitialHeap(size)) && LfreeIsLowest(InitialHeap(size))
  {
    var h := InitialHeap(size);
    ExtentOne(h.blocks[0], true);
    assert h.blocks[0].start == h.lfree && !h.blocks[0].used;
  }
}
