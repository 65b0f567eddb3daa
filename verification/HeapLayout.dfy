/** The heap as a sequence of blocks that tile the region, with what every call does to it. */
module HeapLayout {
  import opened Wrappers
  import opened HeapMemory

  const MIN_SIZE := 12
  const WORD := 0x1_0000_0000

  /** RT_ALIGN(size, 4) on 32-bit numbers: the addition wraps. */
  function RtAlign(size: nat): nat {
    (size + 3) % WORD / 4 * 4
  }

  /** A header and the bytes up to the next header. */
  datatype Block = Block(start: nat, len: nat, used: bool) {
    function Limit(): nat { start + len }

    /** Bytes a caller may use. */
    function Room(): int { len - HEADER }
  }

  /** size is the aligned payload of the whole region, so that the closing header lies at
      size + HEADER; lfree is where the search starts. */
  datatype Heap = Heap(size: nat, blocks: seq<Block>, lfree: nat, usedMem: nat, maxMem: nat) {
    function End(): nat { size + HEADER }
  }

  function Max(a: nat, b: nat): nat { if a < b then b else a }

  // ----- Finding blocks -----

  predicate Fits(b: Block, size: nat) {
    !b.used && b.Room() >= size
  }

  /** Index of the first block from i on that fits, or the number of blocks. */
  function FirstFit(bs: seq<Block>, i: nat, size: nat): (k: nat)
    requires i <= |bs|
    ensures i <= k <= |bs|
    ensures k < |bs| ==> Fits(bs[k], size)
    ensures forall j :: i <= j < k ==> !Fits(bs[j], size)
    decreases |bs| - i
  {
    if i == |bs| || Fits(bs[i], size) then i else FirstFit(bs, i + 1, size)
  }

  /** Index of the block that starts at p, or the number of blocks. */
  function IndexFrom(bs: seq<Block>, i: nat, p: nat): (k: nat)
    requires i <= |bs|
    ensures i <= k <= |bs|
    ensures k < |bs| ==> bs[k].start == p
    ensures forall j :: i <= j < k ==> bs[j].start != p
    decreases |bs| - i
  {
    if i == |bs| || bs[i].start == p then i else IndexFrom(bs, i + 1, p)
  }

  function IndexOf(bs: seq<Block>, p: nat): (k: nat)
    ensures k <= |bs|
    ensures k < |bs| ==> bs[k].start == p
  {
    IndexFrom(bs, 0, p)
  }

  /** Start of the first free block from i on, or end. */
  function NextFree(bs: seq<Block>, i: nat, end: nat): nat
    requires i <= |bs|
    decreases |bs| - i
  {
    if i == |bs| then end else if !bs[i].used then bs[i].start else NextFree(bs, i + 1, end)
  }

  // ----- Changing the block sequence -----

  /** Block k becomes a used block with room for size bytes and a free remainder. */
  function SplitBlock(bs: seq<Block>, k: nat, size: nat): seq<Block>
    requires k < |bs| && bs[k].len >= HEADER + size
  {
    var b := bs[k];
    bs[..k]
    + [Block(b.start, HEADER + size, true), Block(b.start + HEADER + size, b.len - HEADER - size, false)]
    + bs[k + 1..]
  }

  function MarkBlock(bs: seq<Block>, k: nat, used: bool): seq<Block>
    requires k < |bs|
  {
    bs[k := bs[k].(used := used)]
  }

  /** Block k takes in the block after it. */
  function JoinNext(bs: seq<Block>, k: nat): seq<Block>
    requires k + 1 < |bs|
  {
    bs[..k] + [bs[k].(len := bs[k].len + bs[k + 1].len)] + bs[k + 2..]
  }

  predicate NextIsFree(bs: seq<Block>, k: nat) { k + 1 < |bs| && !bs[k + 1].used }

  predicate PreviousIsFree(bs: seq<Block>, k: nat)
    requires k <= |bs|
  {
    k > 0 && !bs[k - 1].used
  }

  function PlugForward(bs: seq<Block>, k: nat): (r: seq<Block>)
    requires k < |bs|
    ensures k < |r| && r[..k] == bs[..k]
  {
    if NextIsFree(bs, k) then JoinNext(bs, k) else bs
  }

  function PlugBackward(bs: seq<Block>, k: nat): seq<Block>
    requires k < |bs|
  {
    if PreviousIsFree(bs, k) then JoinNext(bs, k - 1) else bs
  }

  /** plug_holes on block k. */
  function Plug(bs: seq<Block>, k: nat): seq<Block>
    requires k < |bs|
  {
    PlugBackward(PlugForward(bs, k), k)
  }

  /** lfree follows a block that is taken in by the block before it. */
  function LfreeForward(bs: seq<Block>, k: nat, lfree: nat): nat
    requires k < |bs|
  {
    if NextIsFree(bs, k) && lfree == bs[k + 1].start then bs[k].start else lfree
  }

  function LfreeBackward(bs: seq<Block>, k: nat, lfree: nat): nat
    requires k < |bs|
  {
    if PreviousIsFree(bs, k) && lfree == bs[k].start then bs[k - 1].start else lfree
  }

  function PlugLfree(bs: seq<Block>, k: nat, lfree: nat): nat
    requires k < |bs|
  {
    LfreeBackward(PlugForward(bs, k), k, LfreeForward(bs, k, lfree))
  }

  // ----- The calls -----

  /** Allocation of size bytes in block k. */
  function MallocAt(h: Heap, k: nat, size: nat): Heap
    requires k < |h.blocks| && Fits(h.blocks[k], size)
  {
    var b := h.blocks[k];
    var split := b.Room() >= size + HEADER + MIN_SIZE;
    var blocks := if split then SplitBlock(h.blocks, k, size) else MarkBlock(h.blocks, k, true);
    var used := h.usedMem + (if split then size + HEADER else b.len);
    var lfree := if h.lfree == b.start then NextFree(blocks, k, h.End()) else h.lfree;
    Heap(h.size, blocks, lfree, used, Max(h.maxMem, used))
  }

  /** The size for which a request of size bytes searches. */
  function Wanted(size: nat): nat { Max(RtAlign(size), MIN_SIZE) }

  /** Index of the block that a request gets, or the number of blocks. */
  function Chosen(h: Heap, size: nat): (k: nat)
    ensures k <= |h.blocks|
  {
    FirstFit(h.blocks, IndexOf(h.blocks, h.lfree), Wanted(size))
  }

  predicate Grants(h: Heap, size: nat) {
    && 0 < size && RtAlign(size) <= h.size
    && Chosen(h, size) < |h.blocks|
    && h.blocks[Chosen(h, size)].start < h.size - Wanted(size)
  }

  /** rt_malloc: the heap after the call, and the address returned. */
  function Malloc(h: Heap, size: nat): (Heap, Option<nat>) {
    if Grants(h, size)
    then (MallocAt(h, Chosen(h, size), Wanted(size)), Some(h.blocks[Chosen(h, size)].start + HEADER))
    else (h, None)
  }

  function FreeAt(h: Heap, k: nat): Heap
    requires k < |h.blocks| && h.blocks[k].len <= h.usedMem
  {
    var b := h.blocks[k];
    var marked := MarkBlock(h.blocks, k, false);
    var lfree := if b.start < h.lfree then b.start else h.lfree;
    h.(blocks := Plug(marked, k), lfree := PlugLfree(marked, k, lfree), usedMem := h.usedMem - b.len)
  }

  /** The block behind a pointer. */
  function BlockOf(h: Heap, p: int): (k: nat)
    ensures k <= |h.blocks|
    ensures k < |h.blocks| ==> h.blocks[k].start + HEADER == p
  {
    if p < HEADER then |h.blocks| else IndexOf(h.blocks, p - HEADER)
  }

  /** A pointer that an earlier call returned and that is not free again. */
  predicate Live(h: Heap, p: int) {
    BlockOf(h, p) < |h.blocks| && h.blocks[BlockOf(h, p)].used
  }

  /** The in-place shrink of block k to n bytes. */
  function ShrinkAt(h: Heap, k: nat, n: nat): Heap
    requires k < |h.blocks| && n <= h.blocks[k].Room()
    requires h.blocks[k].Room() - n <= h.usedMem
  {
    var split := SplitBlock(h.blocks, k, n);
    h.(blocks := Plug(split, k + 1), lfree := PlugLfree(split, k + 1, h.lfree),
       usedMem := h.usedMem - (h.blocks[k].Room() - n))
  }

  /** The condition under which rt_realloc shrinks in place. */
  predicate Shrinks(b: Block, n: nat) {
    n + HEADER + MIN_SIZE < b.Room()
  }

  // ----- What every reachable heap satisfies -----

  /** The blocks follow each other from 0 to end, 4-aligned, each with room for a header. */
  ghost predicate Tiles(bs: seq<Block>, end: nat) {
    && |bs| > 0 && bs[0].start == 0 && bs[|bs| - 1].Limit() == end
    && (forall i :: 0 <= i < |bs| ==> bs[i].len >= HEADER && bs[i].start % 4 == 0)
    && (forall i :: 0 <= i < |bs| - 1 ==> bs[i + 1].start == bs[i].Limit())
  }

  ghost predicate NoFreeNeighbours(bs: seq<Block>) {
    forall i :: 0 <= i < |bs| - 1 ==> bs[i].used || bs[i + 1].used
  }

  /** The same, but for pairs that block k is part of. */
  ghost predicate NoFreeNeighboursBut(bs: seq<Block>, k: int) {
    forall i :: 0 <= i < |bs| - 1 && i != k && i + 1 != k ==> bs[i].used || bs[i + 1].used
  }

  /** Sum of the extents of the blocks with the given flag. */
  function Extent(bs: seq<Block>, used: bool): nat {
    if bs == [] then 0 else (if bs[0].used == used then bs[0].len else 0) + Extent(bs[1..], used)
  }

  /** lfree is the start of a free block, or the end. */
  ghost predicate PointsAtFree(bs: seq<Block>, lfree: nat, end: nat) {
    lfree == end || (exists i :: 0 <= i < |bs| && bs[i].start == lfree && !bs[i].used)
  }

  /** No free block lies below lfree. */
  ghost predicate IsLowest(bs: seq<Block>, lfree: nat) {
    forall i :: 0 <= i < |bs| && !bs[i].used ==> lfree <= bs[i].start
  }

  ghost predicate LfreeIsFree(h: Heap) { PointsAtFree(h.blocks, h.lfree, h.End()) }

  ghost predicate LfreeIsLowest(h: Heap) { IsLowest(h.blocks, h.lfree) }

  /** A used block that ends the region has room, so a pointer to it lies in the region. */
  ghost predicate LastHasRoom(bs: seq<Block>) {
    |bs| > 0 && (bs[|bs| - 1].used ==> bs[|bs| - 1].Room() > 0)
  }

  ghost predicate WellFormed(h: Heap) {
    && h.size % 4 == 0
    && Tiles(h.blocks, h.End())
    && NoFreeNeighbours(h.blocks)
    && LastHasRoom(h.blocks)
    && LfreeIsFree(h)
    && h.usedMem == Extent(h.blocks, true) <= h.maxMem
  }

  /** rt_system_heap_init on an aligned payload of size bytes. */
  function InitialHeap(size: nat): Heap {
    Heap(size, [Block(0, size + HEADER, false)], 0, 0, 0)
  }
}
