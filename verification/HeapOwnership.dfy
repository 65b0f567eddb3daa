/** Which regions callers own, and how each call changes that set. */
module HeapOwnership {
  import opened HeapMemory
  import opened HeapLayout
  import opened HeapInvariant

  /** The regions that callers own. */
  function UsedBlocks(bs: seq<Block>): set<Block> {
    set b | b in bs && b.used
  }

  lemma MarkMembers(bs: seq<Block>, k: nat, used: bool, b: Block)
    requires k < |bs|
    requires forall i :: 0 <= i < |bs| && i != k ==> bs[i].start != bs[k].start
    ensures b in MarkBlock(bs, k, used) <==> (b in bs && b != bs[k]) || b == bs[k].(used := used)
  {
    var r := MarkBlock(bs, k, used);
    if b in r {
      var i :| 0 <= i < |r| && r[i] == b;
      assert i != k ==> bs[i] == b;
    }
    if b in bs && b != bs[k] {
      var i :| 0 <= i < |bs| && bs[i] == b;
      assert r[i] == b;
    }
    assert r[k] == bs[k].(used := used);
  }

  lemma ReplacedMembers(bs: seq<Block>, k: nat, n: nat, mid: seq<Block>, b: Block)
    requires k + n <= |bs|
    ensures b in bs[..k] + mid + bs[k + n..] <==> b in bs[..k] || b in mid || b in bs[k + n..]
    ensures b in bs <==> b in bs[..k] || b in bs[k..k + n] || b in bs[k + n..]
  {
    assert bs == bs[..k] + bs[k..k + n] + bs[k + n..];
  }

  /** Joining two free blocks does not change what is used. */
  lemma JoinKeepsUsed(bs: seq<Block>, k: nat)
    requires k + 1 < |bs| && !bs[k].used && !bs[k + 1].used
    ensures UsedBlocks(JoinNext(bs, k)) == UsedBlocks(bs)
  {
    var mid := [bs[k].(len := bs[k].len + bs[k + 1].len)];
    assert bs[k..k + 2] == [bs[k], bs[k + 1]];
    forall b
      ensures b in UsedBlocks(JoinNext(bs, k)) <==> b in UsedBlocks(bs)
    {
      ReplacedMembers(bs, k, 2, mid, b);
    }
  }

  lemma PlugKeepsUsed(bs: seq<Block>, k: nat)
    requires k < |bs| && !bs[k].used
    ensures UsedBlocks(Plug(bs, k)) == UsedBlocks(bs)
  {
    hide UsedBlocks;
    var forward := PlugForward(bs, k);
    assert !forward[k].used;
    if NextIsFree(bs, k) {
      JoinKeepsUsed(bs, k);
    }
    if PreviousIsFree(forward, k) {
      JoinKeepsUsed(forward, k - 1);
    }
  }

  lemma StartsDiffer(bs: seq<Block>, end: nat, k: nat)
    requires Tiles(bs, end) && k < |bs|
    ensures forall i :: 0 <= i < |bs| && i != k ==> bs[i].start != bs[k].start
    ensures bs[k] !in bs[..k] && bs[k] !in bs[k + 1..]
  {
    AllOrdered(bs, end);
  }

  lemma UsedAfterSplit(bs: seq<Block>, end: nat, k: nat, size: nat)
    requires Tiles(bs, end) && k < |bs| && bs[k].len >= HEADER + size
    ensures UsedBlocks(SplitBlock(bs, k, size))
         == UsedBlocks(bs) - {bs[k]} + {Block(bs[k].start, HEADER + size, true)}
  {
    var b0 := bs[k];
    var b1, b2 := Block(b0.start, HEADER + size, true), Block(b0.start + HEADER + size, b0.len - HEADER - size, false);
    assert bs[k..k + 1] == [b0];
    StartsDiffer(bs, end, k);
    forall b
      ensures b in UsedBlocks(SplitBlock(bs, k, size)) <==> b in UsedBlocks(bs) - {b0} + {b1}
    {
      ReplacedMembers(bs, k, 1, [b1, b2], b);
    }
  }

  lemma UsedAfterMark(bs: seq<Block>, end: nat, k: nat, used: bool)
    requires Tiles(bs, end) && k < |bs|
    ensures UsedBlocks(MarkBlock(bs, k, used))
         == UsedBlocks(bs) - {bs[k]} + (if used then {bs[k].(used := true)} else {})
  {
    StartsDiffer(bs, end, k);
    forall b
      ensures b in UsedBlocks(MarkBlock(bs, k, used))
         <==> b in UsedBlocks(bs) - {bs[k]} + (if used then {bs[k].(used := true)} else {})
    {
      MarkMembers(bs, k, used, b);
    }
  }

  /** The region that a granted request of s bytes in block k gets. */
  function Granted(h: Heap, k: nat, s: nat): Block
    requires k < |h.blocks|
  {
    var b := h.blocks[k];
    Block(b.start, if b.Room() >= s + HEADER + MIN_SIZE then HEADER + s else b.len, true)
  }

  /** Allocation adds one region, taken whole from a free block. */
  lemma UsedAfterMalloc(h: Heap, k: nat, s: nat)
    requires WellFormed(h) && k < |h.blocks| && Fits(h.blocks[k], s)
    ensures UsedBlocks(MallocAt(h, k, s).blocks) == UsedBlocks(h.blocks) + {Granted(h, k, s)}
    ensures Granted(h, k, s) !in UsedBlocks(h.blocks)
    ensures Granted(h, k, s).Room() >= s
    ensures forall b :: b in UsedBlocks(h.blocks) ==> Disjoint(b, Granted(h, k, s))
  {
    assert h.blocks[k] !in UsedBlocks(h.blocks);
    if h.blocks[k].Room() >= s + HEADER + MIN_SIZE {
      UsedAfterSplit(h.blocks, h.End(), k, s);
    } else {
      UsedAfterMark(h.blocks, h.End(), k, true);
    }
    AllOrdered(h.blocks, h.End());
    forall b | b in UsedBlocks(h.blocks)
      ensures Disjoint(b, Granted(h, k, s)) && b != Granted(h, k, s)
    {
      var i :| 0 <= i < |h.blocks| && h.blocks[i] == b;
      assert i != k;
    }
  }

  /** Two regions, headers included, share no byte. */
  predicate Disjoint(a: Block, b: Block) {
    a.Limit() <= b.start || b.Limit() <= a.start
  }

  /** Freeing removes exactly the freed region. */
  lemma UsedAfterFree(h: Heap, k: nat)
    requires WellFormed(h) && k < |h.blocks| && h.blocks[k].used && h.blocks[k].len <= h.usedMem
    ensures UsedBlocks(FreeAt(h, k).blocks) == UsedBlocks(h.blocks) - {h.blocks[k]}
  {
    hide UsedBlocks;
    UsedAfterMark(h.blocks, h.End(), k, false);
    PlugKeepsUsed(MarkBlock(h.blocks, k, false), k);
  }

  /** Shrinking keeps the front of the region. */
  lemma UsedAfterShrink(h: Heap, k: nat, n: nat)
    requires WellFormed(h) && k < |h.blocks| && h.blocks[k].used && n % 4 == 0 && Shrinks(h.blocks[k], n)
    requires h.blocks[k].Room() - n <= h.usedMem
    ensures UsedBlocks(ShrinkAt(h, k, n).blocks)
         == UsedBlocks(h.blocks) - {h.blocks[k]} + {Block(h.blocks[k].start, HEADER + n, true)}
  {
    hide UsedBlocks;
    UsedAfterSplit(h.blocks, h.End(), k, n);
    PlugKeepsUsed(SplitBlock(h.blocks, k, n), k + 1);
  }

  /** Regions that callers own never overlap. */
  lemma OwnedRegionsAreDisjoint(h: Heap, a: Block, b: Block)
    requires WellFormed(h) && a in h.blocks && b in h.blocks && a != b
    ensures Disjoint(a, b)
  {
    AllOrdered(h.blocks, h.End());
    var i :| 0 <= i < |h.blocks| && h.blocks[i] == a;
    var j :| 0 <= j < |h.blocks| && h.blocks[j] == b;
    assert i < j || j < i;
  }

  /** Some region of s starts 12 bytes below p. */
  ghost predicate OwnedAt(s: set<Block>, p: int) {
    exists b :: b in s && b.start + HEADER == p
  }

  /** A pointer is live exactly when it is 12 bytes past the start of an owned region. */
  lemma LiveIffOwned(h: Heap, p: int)
    requires WellFormed(h)
    ensures Live(h, p) <==> OwnedAt(UsedBlocks(h.blocks), p)
  {
    if Live(h, p) {
      assert h.blocks[BlockOf(h, p)] in UsedBlocks(h.blocks);
    }
    if OwnedAt(UsedBlocks(h.blocks), p) {
      var b :| b in UsedBlocks(h.blocks) && b.start + HEADER == p;
      var i :| 0 <= i < |h.blocks| && h.blocks[i] == b;
      IndexOfStart(h.blocks, h.End(), i);
    }
  }

  /** The block behind a live pointer is the owned region that starts 12 bytes below it. */
  lemma BlockOfOwned(h: Heap, b: Block)
    requires WellFormed(h) && b in UsedBlocks(h.blocks)
    ensures Live(h, b.start + HEADER) && h.blocks[BlockOf(h, b.start + HEADER)] == b
  {
    var i :| 0 <= i < |h.blocks| && h.blocks[i] == b;
    IndexOfStart(h.blocks, h.End(), i);
  }
}
