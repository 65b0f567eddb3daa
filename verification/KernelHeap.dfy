/** The allocator itself: one byte region with headers in it, a search pointer and running
    statistics, rewritten in place by every call. */
module KernelHeap {
  import opened Buffers
  import opened Wrappers
  import opened HeapMemory
  import opened HeapLayout
  import opened HeapInvariant
  import opened HeapChain
  import opened HeapOwnership
  import HeapCalls

  class SystemHeap {
    const size: nat
    const ram: array<byte>
    var lfree: nat
    var usedMem: nat
    var maxMem: nat
    ghost var blocks: seq<Block>

    /** The abstract heap. */
    ghost function Abs(): Heap
      reads this
    {
      Heap(size, blocks, lfree, usedMem, maxMem)
    }

    function HeapEnd(): nat { size + HEADER }

    ghost predicate Valid()
      reads this, ram
    {
      && size + 2 * HEADER < WORD
      && WellFormed(Abs())
      && Represents(ram[..], blocks, HeapEnd())
    }

    // ----- Header fields -----

    method Read(p: nat) returns (hd: Header)
      requires p + HEADER <= ram.Length
      ensures hd == HeaderAt(ram[..], p)
    {
      hd := HeaderAt(ram[..], p);
    }

    method StoreMagic(p: nat, v: nat)
      requires p + HEADER <= ram.Length && v < 0x1_0000
      modifies ram
      ensures Wrote(old(ram[..]), ram[..], p, HeaderAt(old(ram[..]), p).(magic := v))
    {
      PutMagicWrote(ram[..], p, v);
      StoreAll(ram, p, Bytes16(v));
    }

    method StoreUsed(p: nat, v: nat)
      requires p + HEADER <= ram.Length && v < 0x1_0000
      modifies ram
      ensures Wrote(old(ram[..]), ram[..], p, HeaderAt(old(ram[..]), p).(used := v))
    {
      PutUsedWrote(ram[..], p, v);
      StoreAll(ram, p + 2, Bytes16(v));
    }

    method StoreNext(p: nat, v: nat)
      requires p + HEADER <= ram.Length && v < WORD
      modifies ram
      ensures Wrote(old(ram[..]), ram[..], p, HeaderAt(old(ram[..]), p).(next := v))
    {
      PutNextWrote(ram[..], p, v);
      StoreAll(ram, p + 4, Bytes32(v));
    }

    method StorePrev(p: nat, v: nat)
      requires p + HEADER <= ram.Length && v < WORD
      modifies ram
      ensures Wrote(old(ram[..]), ram[..], p, HeaderAt(old(ram[..]), p).(prev := v))
    {
      PutPrevWrote(ram[..], p, v);
      StoreAll(ram, p + 8, Bytes32(v));
    }

    // ----- Initialisation -----

    /** rt_system_heap_init, once the payload size is known. */
    constructor (payload: nat)
      requires payload % 4 == 0 && payload + 2 * HEADER < WORD
      ensures Valid() && fresh(ram) && Abs() == InitialHeap(payload)
    {
      size := payload;
      ram := new byte[payload + 2 * HEADER](i => 0);
      lfree := 0;
      usedMem := 0;
      maxMem := 0;
      blocks := [Block(0, payload + HEADER, false)];
      new;
      hide HeaderAt, Represents, WellFormed;
      FillHeader(0, HeapEnd(), 0, 0);
      ghost var first := ram[..];
      FillHeader(HeapEnd(), HeapEnd(), HeapEnd(), 1);
      InitialHeapIsWellFormed(payload);
      InitialRepresents(first, ram[..], payload);
    }

    method FillHeader(p: nat, next: nat, prev: nat, used: nat)
      requires p + HEADER <= ram.Length && next < WORD && prev < WORD && used <= 1
      modifies ram
      ensures Wrote(old(ram[..]), ram[..], p, Header(HEAP_MAGIC, used, next, prev))
    {
      hide HeaderAt, Wrote;
      ghost var m := ram[..];
      StoreMagic(p, HEAP_MAGIC);
      ghost var m1 := ram[..];
      WroteReads(m, m1, p, HeaderAt(m, p).(magic := HEAP_MAGIC));
      StoreNext(p, next);
      ghost var m2 := ram[..];
      WroteReads(m1, m2, p, HeaderAt(m1, p).(next := next));
      StorePrev(p, prev);
      ghost var m3 := ram[..];
      WroteReads(m2, m3, p, HeaderAt(m2, p).(prev := prev));
      StoreUsed(p, used);
      WroteTwice(m, m1, m2, p, HeaderAt(m1, p), HeaderAt(m2, p));
      WroteTwice(m, m2, m3, p, HeaderAt(m2, p), HeaderAt(m3, p));
      WroteTwice(m, m3, ram[..], p, HeaderAt(m3, p), HeaderAt(m3, p).(used := used));
    }

    // ----- plug_holes -----

    /** plug_holes on block k. */
    method PlugHoles(p: nat, ghost k: nat)
      requires size + 2 * HEADER < WORD && Tiles(blocks, HeapEnd()) && Represents(ram[..], blocks, HeapEnd())
      requires k < |blocks| && blocks[k].start == p && !blocks[k].used
      modifies this`lfree, this`blocks, ram
      ensures Tiles(blocks, HeapEnd()) && Represents(ram[..], blocks, HeapEnd())
      ensures blocks == Plug(old(blocks), k) && lfree == PlugLfree(old(blocks), k, old(lfree))
      ensures KeepsLive(old(ram[..]), ram[..], old(blocks), -1)
    {
      PlugHoleForward(p, k);
      label forward:
      PlugHoleBackward(p, k);
      LiveThroughPlug(old(ram[..]), old@forward(ram[..]), ram[..], old(blocks), k);
    }

    /** The two header writes that let block k take in the block after it. */
    method TakeInNext(p: nat, limit: nat, ghost k: nat)
      requires size + 2 * HEADER < WORD && Tiles(blocks, HeapEnd()) && Represents(ram[..], blocks, HeapEnd())
      requires k + 1 < |blocks| && blocks[k].start == p && blocks[k + 1].Limit() == limit
      requires !blocks[k].used && !blocks[k + 1].used
      modifies this`blocks, ram
      ensures Tiles(blocks, HeapEnd()) && Represents(ram[..], blocks, HeapEnd())
      ensures blocks == JoinNext(old(blocks), k)
      ensures KeepsLive(old(ram[..]), ram[..], old(blocks), -1)
    {
      hide HeaderAt, KeepsPayload, Wrote, JoinNext;
      AllOrdered(blocks, HeapEnd());
      ghost var m := ram[..];
      StoreNext(p, limit);
      ghost var m1 := ram[..];
      StorePrev(limit, p);
      JoinKeepsPayloads(m, m1, ram[..], blocks, HeapEnd(), k);
      JoinRepresents(m, m1, ram[..], blocks, HeapEnd(), k);
      JoinTiles(blocks, HeapEnd(), k);
      blocks := JoinNext(blocks, k);
    }

    method PlugHoleForward(p: nat, ghost k: nat)
      requires size + 2 * HEADER < WORD && Tiles(blocks, HeapEnd()) && Represents(ram[..], blocks, HeapEnd())
      requires k < |blocks| && blocks[k].start == p && !blocks[k].used
      modifies this`lfree, this`blocks, ram
      ensures Tiles(blocks, HeapEnd()) && Represents(ram[..], blocks, HeapEnd())
      ensures blocks == PlugForward(old(blocks), k) && lfree == LfreeForward(old(blocks), k, old(lfree))
      ensures KeepsLive(old(ram[..]), ram[..], old(blocks), -1)
    {
      hide HeaderAt, KeepsPayload, KeepsLive, JoinNext, Tiles, Represents;
      HeaderOfBlock(ram[..], blocks, HeapEnd(), k);
      NothingChanged(ram[..], blocks);
      if k + 1 < |blocks| {
        HeaderOfBlock(ram[..], blocks, HeapEnd(), k + 1);
      }
      var mem := Read(p);
      var nmem := Read(mem.next);
      if p != mem.next && nmem.used == 0 && mem.next != HeapEnd() {
        if lfree == mem.next {
          lfree := p;
        }
        TakeInNext(p, nmem.next, k);
      }
    }

    method PlugHoleBackward(p: nat, ghost k: nat)
      requires size + 2 * HEADER < WORD && Tiles(blocks, HeapEnd()) && Represents(ram[..], blocks, HeapEnd())
      requires k < |blocks| && blocks[k].start == p && !blocks[k].used
      modifies this`lfree, this`blocks, ram
      ensures Tiles(blocks, HeapEnd()) && Represents(ram[..], blocks, HeapEnd())
      ensures blocks == PlugBackward(old(blocks), k) && lfree == LfreeBackward(old(blocks), k, old(lfree))
      ensures KeepsLive(old(ram[..]), ram[..], old(blocks), -1)
    {
      hide HeaderAt, KeepsPayload, KeepsLive, JoinNext, Tiles, Represents;
      HeaderOfBlock(ram[..], blocks, HeapEnd(), k);
      NothingChanged(ram[..], blocks);
      if k > 0 {
        HeaderOfBlock(ram[..], blocks, HeapEnd(), k - 1);
      }
      var mem := Read(p);
      var pmem := Read(mem.prev);
      if mem.prev != p && pmem.used == 0 {
        if lfree == p {
          lfree := mem.prev;
        }
        TakeInNext(mem.prev, mem.next, k - 1);
      }
    }

    // ----- rt_free -----

    /** rt_free on NULL, on an address outside the region, or on a live pointer. */
    method Free(rmem: Option<int>)
      requires Valid() && HeapCalls.Acceptable(Abs(), rmem)
      modifies this`lfree, this`usedMem, this`blocks, ram
      ensures Valid() && Abs() == HeapCalls.Free(old(Abs()), rmem)
      ensures KeepsLive(old(ram[..]), ram[..], old(blocks),
                        if rmem == None then -1 else BlockOf(old(Abs()), rmem.value))
    {
      NothingChanged(ram[..], blocks);
      if rmem == None {
        return;
      }
      LivePointersAreInside(Abs());
      if rmem.value < 0 || rmem.value >= HeapEnd() {
        return;
      }
      FreeBlock(rmem.value - HEADER, BlockOf(Abs(), rmem.value));
    }

    method FreeBlock(p: nat, ghost k: nat)
      requires Valid() && k < |blocks| && blocks[k].start == p && blocks[k].used
      modifies this`lfree, this`usedMem, this`blocks, ram
      ensures Valid()
      ensures old(blocks)[k].len <= old(usedMem) && Abs() == FreeAt(old(Abs()), k)
      ensures KeepsLive(old(ram[..]), ram[..], old(blocks), k)
    {
      hide HeaderAt, KeepsPayload, KeepsLive, Tiles, Represents, Plug, PlugLfree, PointsAtFree, Wrote, Extent;
      ghost var h, m := Abs(), ram[..];
      FreeKeepsWellFormed(h, k);
      HeaderOfBlock(m, blocks, HeapEnd(), k);
      var mem := Read(p);
      StoreUsed(p, 0);
      ghost var m1 := ram[..];
      WroteReads(m, m1, p, HeaderAt(m, p).(used := 0));
      StoreMagic(p, 0);
      ghost var m2 := ram[..];
      ghost var hd := HeaderAt(m, p).(used := 0, magic := 0);
      WroteTwice(m, m1, m2, p, HeaderAt(m1, p), hd);
      if p < lfree {
        lfree := p;
      }
      usedMem := usedMem - (mem.next - p);
      MarkRepresents(m, m2, blocks, HeapEnd(), k, hd);
      WriteAtBlockKeepsPayloads(m, m2, blocks, HeapEnd(), k, hd);
      MarkTiles(blocks, HeapEnd(), k, false);
      blocks := MarkBlock(blocks, k, false);
      PlugHoles(p, k);
      LiveThroughMark(m, m2, ram[..], h.blocks, k);
    }

    // ----- rt_malloc -----

    /** lfree moves on to the next free block, or to the closing header. */
    method AdvanceLfree(ghost k: nat)
      requires size + 2 * HEADER < WORD && Tiles(blocks, HeapEnd()) && Represents(ram[..], blocks, HeapEnd())
      requires k < |blocks| && lfree == blocks[k].start
      modifies this`lfree
      ensures lfree == NextFree(blocks, k, HeapEnd())
    {
      hide HeaderAt, Tiles, Represents;
      ghost var j := k;
      HeaderOfBlock(ram[..], blocks, HeapEnd(), k);
      ClosingHeaderReads(ram[..], blocks, HeapEnd());
      var hd := Read(lfree);
      while hd.used != 0 && lfree != HeapEnd()
        invariant k <= j <= |blocks|
        invariant NextFree(blocks, j, HeapEnd()) == NextFree(blocks, k, HeapEnd())
        invariant lfree == (if j < |blocks| then blocks[j].start else HeapEnd())
        invariant lfree + HEADER <= ram.Length && hd == HeaderAt(ram[..], lfree)
        invariant j < |blocks| ==> hd.used == (if blocks[j].used then 1 else 0)
        decreases |blocks| - j
      {
        ClosingIsLast(blocks, HeapEnd(), j);
        HeaderOfBlock(ram[..], blocks, HeapEnd(), j);
        if j + 1 < |blocks| {
          HeaderOfBlock(ram[..], blocks, HeapEnd(), j + 1);
        }
        lfree := hd.next;
        j := j + 1;
        hd := Read(lfree);
      }
      if j < |blocks| {
        HeaderOfBlock(ram[..], blocks, HeapEnd(), j);
      }
    }

    /** The allocation of s bytes in block k, with the statistics and lfree. */
    method TakeBlock(p: nat, s: nat, ghost k: nat)
      requires Valid() && k < |blocks| && blocks[k].start == p && Fits(blocks[k], s) && s % 4 == 0 && s >= MIN_SIZE
      modifies this`lfree, this`usedMem, this`maxMem, this`blocks, ram
      ensures Valid() && Abs() == MallocAt(old(Abs()), k, s)
      ensures KeepsLive(old(ram[..]), ram[..], old(blocks), -1)
    {
      hide HeaderAt, KeepsPayload, KeepsLive, Tiles, Represents, PointsAtFree, Wrote, Extent, SplitBlock, NextFree;
      ghost var h := Abs();
      MallocKeepsWellFormed(h, k, s);
      HeaderOfBlock(ram[..], blocks, HeapEnd(), k);
      var mem := Read(p);
      if mem.next - (p + HEADER) >= s + HEADER + MIN_SIZE {
        CarveBlock(p, s, mem.next, k);
        usedMem := usedMem + s + HEADER;
      } else {
        UseWholeBlock(p, k);
        usedMem := usedMem + (mem.next - p);
      }
      if maxMem < usedMem {
        maxMem := usedMem;
      }
      if p == lfree {
        assert blocks == MallocAt(h, k, s).blocks;
        MallocKeepsStart(h, k, s);
        AdvanceLfree(k);
      }
    }

    method UseWholeBlock(p: nat, ghost k: nat)
      requires Valid() && k < |blocks| && blocks[k].start == p && !blocks[k].used
      modifies this`blocks, ram
      ensures blocks == MarkBlock(old(blocks), k, true) && Represents(ram[..], blocks, HeapEnd())
      ensures KeepsLive(old(ram[..]), ram[..], old(blocks), -1)
    {
      hide HeaderAt, KeepsPayload, Tiles, Represents, Wrote, Extent, PointsAtFree;
      ghost var m := ram[..];
      HeaderOfBlock(m, blocks, HeapEnd(), k);
      StoreUsed(p, 1);
      ghost var m1 := ram[..];
      WroteReads(m, m1, p, HeaderAt(m, p).(used := 1));
      StoreMagic(p, HEAP_MAGIC);
      ghost var hd := HeaderAt(m, p).(used := 1, magic := HEAP_MAGIC);
      WroteTwice(m, m1, ram[..], p, HeaderAt(m1, p), hd);
      MarkRepresents(m, ram[..], blocks, HeapEnd(), k, hd);
      WriteAtBlockKeepsPayloads(m, ram[..], blocks, HeapEnd(), k, hd);
      blocks := MarkBlock(blocks, k, true);
    }

    /** The split of a free block: new header, old header, the following prev, the magic. */
    method CarveBlock(p: nat, s: nat, limit: nat, ghost k: nat)
      requires Valid() && k < |blocks| && blocks[k].start == p && !blocks[k].used && blocks[k].Limit() == limit
      requires blocks[k].len >= HEADER + s + HEADER
      modifies this`blocks, ram
      ensures blocks == SplitBlock(old(blocks), k, s) && Represents(ram[..], blocks, HeapEnd())
      ensures KeepsLive(old(ram[..]), ram[..], old(blocks), -1)
    {
      hide HeaderAt, KeepsPayload, Tiles, Represents, Wrote, Extent, PointsAtFree, SplitBlock, NoFreeNeighbours;
      ghost var m, end := ram[..], HeapEnd();
      HeaderOfBlock(m, blocks, end, k);
      if k + 1 < |blocks| {
        HeaderOfBlock(m, blocks, end, k + 1);
      }
      var p2 := p + HEADER + s;
      ghost var m1, new_ := NewHeader(p2, limit, p, false);
      ghost var m2, old_ := SetNextUsed(p, p2);
      OldHeaderKept(m, m1, blocks, end, k, p2, new_);
      if limit != HeapEnd() {
        StorePrev(limit, p2);
      }
      ghost var m3 := ram[..];
      StoreMagic(p, HEAP_MAGIC);
      SplitRepresents(m, m1, m2, m3, ram[..], blocks, end, k, s, new_, old_);
      SplitKeepsOthers(m, m1, m2, m3, ram[..], blocks, end, k, s, new_, old_);
      blocks := SplitBlock(blocks, k, s);
    }

    /** The fields of a new free header; rt_realloc also stores the magic number. */
    method NewHeader(p: nat, next: nat, prev: nat, magic: bool) returns (ghost m: seq<byte>, ghost hd: Header)
      requires p + HEADER <= ram.Length && next < WORD && prev < WORD
      modifies ram
      ensures m == ram[..] && Wrote(old(ram[..]), m, p, hd)
      ensures hd.used == 0 && hd.next == next && hd.prev == prev
    {
      hide HeaderAt, Wrote;
      ghost var m0 := ram[..];
      if magic {
        StoreMagic(p, HEAP_MAGIC);
      }
      ghost var m1 := ram[..];
      StoreUsed(p, 0);
      ghost var m2 := ram[..];
      StoreNext(p, next);
      ghost var m3 := ram[..];
      StorePrev(p, prev);
      m := ram[..];
      ghost var h2 := HeaderAt(m1, p).(used := 0);
      ghost var h3 := h2.(next := next);
      hd := h3.(prev := prev);
      WroteReads(m1, m2, p, h2);
      WroteReads(m2, m3, p, h3);
      WroteTwice(m1, m2, m3, p, h2, h3);
      WroteTwice(m1, m3, m, p, h3, hd);
      if magic {
        WroteTwice(m0, m1, m, p, HeaderAt(m0, p).(magic := HEAP_MAGIC), hd);
      }
    }

    method SetNextUsed(p: nat, next: nat) returns (ghost m: seq<byte>, ghost hd: Header)
      requires p + HEADER <= ram.Length && next < WORD
      modifies ram
      ensures m == ram[..] && hd == HeaderAt(old(ram[..]), p).(next := next, used := 1)
      ensures Wrote(old(ram[..]), m, p, hd)
    {
      hide HeaderAt, Wrote;
      ghost var m0 := ram[..];
      StoreNext(p, next);
      ghost var m1 := ram[..];
      WroteReads(m0, m1, p, HeaderAt(m0, p).(next := next));
      StoreUsed(p, 1);
      m := ram[..];
      hd := HeaderAt(m0, p).(next := next, used := 1);
      WroteTwice(m0, m1, m, p, HeaderAt(m1, p), hd);
    }

    /** The search loop: the lowest fitting free block at or above lfree, if its start lies
        below the bound. */
    method Search(s: nat) returns (r: Option<nat>, ghost k: nat)
      requires Valid() && s <= size
      ensures var f := FirstFit(blocks, IndexOf(blocks, lfree), s);
              k == f && r == if f < |blocks| && blocks[f].start < size - s then Some(blocks[f].start) else None
    {
      hide HeaderAt, Fits, Represents, WellFormed, IndexOf;
      ghost var h := Abs();
      LfreeIsABlock(h);
      k := IndexOf(blocks, lfree);
      var ptr := lfree;
      assert (size - s) % WORD == size - s;
      while ptr < (size - s) % WORD
        invariant 0 <= k <= |blocks| && ptr == (if k < |blocks| then blocks[k].start else HeapEnd())
        invariant FirstFit(blocks, IndexOf(blocks, lfree), s) == FirstFit(blocks, k, s)
        decreases |blocks| - k
      {
        SearchStep(h, ram[..], k, s);
        var mem := Read(ptr);
        if mem.used == 0 && mem.next - (ptr + HEADER) >= s {
          return Some(ptr), k;
        }
        ptr := mem.next;
        k := k + 1;
      }
      StartsIncreaseFrom(h, k);
      k := FirstFit(blocks, k, s);
      r := None;
    }

    /** rt_malloc. */
    method Malloc(request: nat) returns (r: Option<nat>)
      requires Valid() && request < WORD && HeapCalls.Searchable(Abs(), request)
      modifies this`lfree, this`usedMem, this`maxMem, this`blocks, ram
      ensures Valid()
      ensures (Abs(), r) == HeapLayout.Malloc(old(Abs()), request)
      ensures KeepsLive(old(ram[..]), ram[..], old(blocks), -1)
    {
      hide HeaderAt, KeepsLive, Represents, WellFormed, IndexOf, MallocAt;
      NothingChanged(ram[..], blocks);
      if request == 0 {
        return None;
      }
      var s := RtAlign(request);
      if s > size {
        return None;
      }
      if s < MIN_SIZE {
        s := MIN_SIZE;
      }
      HeapCalls.WantedIsAligned(request);
      var found, k := Search(s);
      if found == None {
        return None;
      }
      TakeBlock(found.value, s, k);
      r := Some(found.value + HEADER);
    }

    // ----- rt_realloc -----

    /** The in-place shrink of block k: new header with magic, the shortened header, the
        following prev, then plug_holes on the new block. */
    method ShrinkBlock(p: nat, n: nat, ghost k: nat)
      requires Valid() && k < |blocks| && blocks[k].start == p && blocks[k].used && n % 4 == 0 && Shrinks(blocks[k], n)
      modifies this`lfree, this`usedMem, this`blocks, ram
      ensures Valid() && old(blocks)[k].Room() - n <= old(usedMem) && Abs() == ShrinkAt(old(Abs()), k, n)
      ensures KeepsLive(old(ram[..]), ram[..], old(blocks), k)
      ensures KeepsPayload(old(ram[..]), ram[..], Block(p, HEADER + n, true))
    {
      hide HeaderAt, KeepsPayload, KeepsLive, Tiles, Represents, Wrote, Extent, PointsAtFree, SplitBlock,
        NoFreeNeighbours, Plug, PlugLfree;
      ghost var h, m, end := Abs(), ram[..], HeapEnd();
      ShrinkKeepsWellFormed(h, k, n);
      HeaderOfBlock(m, blocks, end, k);
      UsedBlockReads(m, blocks, end, k);
      if k + 1 < |blocks| {
        HeaderOfBlock(m, blocks, end, k + 1);
      }
      var mem := Read(p);
      usedMem := usedMem - (mem.next - p - HEADER - n);
      var p2 := p + HEADER + n;
      ghost var m1, new_ := NewHeader(p2, mem.next, p, true);
      OldHeaderKept(m, m1, blocks, end, k, p2, new_);
      ghost var m2, old_ := SetNext(p, p2);
      if mem.next != HeapEnd() {
        StorePrev(mem.next, p2);
      }
      ghost var m3 := ram[..];
      SplitTiles(blocks, end, k, n);
      SplitRepresents(m, m1, m2, m3, m3, blocks, end, k, n, new_, old_);
      SplitKeepsOthers(m, m1, m2, m3, m3, blocks, end, k, n, new_, old_);
      SplitKeepsFront(m, m1, m2, m3, m3, blocks, end, k, n, new_, old_);
      SplitGives(blocks, k, n);
      blocks := SplitBlock(blocks, k, n);
      PlugHoles(p2, k + 1);
      LiveThroughShrink(m, m3, ram[..], h.blocks, k, n);
    }

    method SetNext(p: nat, next: nat) returns (ghost m: seq<byte>, ghost hd: Header)
      requires p + HEADER <= ram.Length && next < WORD
      modifies ram
      ensures m == ram[..] && hd == HeaderAt(old(ram[..]), p).(next := next)
      ensures Wrote(old(ram[..]), m, p, hd)
    {
      hd := HeaderAt(ram[..], p).(next := next);
      StoreNext(p, next);
      m := ram[..];
    }

    /** rt_realloc. */
    method Realloc(rmem: Option<int>, request: nat) returns (r: Option<int>)
      requires Valid() && HeapCalls.Acceptable(Abs(), rmem) && request < WORD
      requires HeapCalls.Resizable(Abs(), rmem, request)
      modifies this`lfree, this`usedMem, this`maxMem, this`blocks, ram
      ensures Valid() && (Abs(), r) == HeapCalls.Realloc(old(Abs()), rmem, request)
      ensures KeepsLive(old(ram[..]), ram[..], old(blocks),
                        if rmem == None then -1 else BlockOf(old(Abs()), rmem.value))
      ensures rmem.Some? && Live(old(Abs()), rmem.value) ==>
                var b := old(blocks)[BlockOf(old(Abs()), rmem.value)];
                && (r == None ==> KeepsPayload(old(ram[..]), ram[..], b))
                && (r.Some? ==>
                      r.value >= 0
                      && CopiedFront(old(ram[..]), rmem.value, ram[..], r.value, MinNat(b.Room(), RtAlign(request))))
    {
      hide HeaderAt, KeepsPayload, KeepsLive, Tiles, Represents, PointsAtFree, Extent, NoFreeNeighbours;
      HeapCalls.AlignedSize(request);
      KeptAll(ram[..], blocks);
      LivePointersAreInside(Abs());
      var n := RtAlign(request);
      ghost var h, m := Abs(), ram[..];
      if n > size {
        return None;
      }
      if rmem == None {
        r := Malloc(n);
        return r;
      }
      if rmem.value < 0 || rmem.value >= HeapEnd() {
        return rmem;
      }
      ghost var k := BlockOf(h, rmem.value);
      r := ResizeBlock(rmem.value, n, k);
    }

    /** rt_realloc once the block is known to lie in the region. */
    method ResizeBlock(rmem: nat, n: nat, ghost k: nat) returns (r: Option<int>)
      requires Valid() && n < WORD && n % 4 == 0
      requires k < |blocks| && blocks[k].used && rmem == blocks[k].start + HEADER
      requires HeapCalls.Moves(blocks[k], n) ==> HeapCalls.Searchable(Abs(), n)
      modifies this`lfree, this`usedMem, this`maxMem, this`blocks, ram
      ensures Valid() && (Abs(), r) == HeapCalls.Resize(old(Abs()), k, n)
      ensures KeepsLive(old(ram[..]), ram[..], old(blocks), k)
      ensures r == None ==> KeepsPayload(old(ram[..]), ram[..], old(blocks)[k])
      ensures r.Some? ==> r.value >= 0
                          && CopiedFront(old(ram[..]), rmem, ram[..], r.value, MinNat(old(blocks)[k].Room(), n))
    {
      hide HeaderAt, KeepsPayload, KeepsLive, Tiles, Represents, PointsAtFree, Extent, NoFreeNeighbours, ShrinkAt,
          HeapCalls.Move, CopiedFront, Live, BlockOf;
      KeptAll(ram[..], blocks);
      ghost var m := ram[..];
      var p := rmem - HEADER;
      HeaderOfBlock(m, blocks, HeapEnd(), k);
      var mem := Read(p);
      var room := mem.next - p - HEADER;
      if room == n {
        FrontOfPayload(m, m, blocks[k], n);
        return Some(rmem);
      }
      if n + HEADER + MIN_SIZE < room {
        ShrinkBlock(p, n, k);
        FrontOfPayload(m, ram[..], Block(p, HEADER + n, true), n);
        return Some(rmem);
      }
      r := MoveBlock(rmem, n, room, k);
    }

    /** rt_memcpy of len bytes into the region g, then rt_free of the region they came from,
        which is block kg. */
    method CopyThenFree(rmem: nat, dst: nat, len: nat, ghost kg: nat, ghost g: Block)
      requires Valid() && kg < |blocks| && blocks[kg].used && rmem == blocks[kg].start + HEADER
          && len <= blocks[kg].Room()
      requires g in UsedBlocks(blocks) && g != blocks[kg] && dst == g.start + HEADER && len <= g.Room()
      modifies this`lfree, this`usedMem, this`blocks, ram
      ensures Valid() && old(blocks)[kg].len <= old(usedMem) && Abs() == FreeAt(old(Abs()), kg)
      ensures KeepsOthers(old(ram[..]), ram[..], old(blocks), kg, g)
      ensures CopiedFront(old(ram[..]), rmem, ram[..], dst, len)
    {
      hide HeaderAt, KeepsPayload, KeepsLive, Represents, WellFormed, FreeAt, CopiedFront;
      ghost var h, m := Abs(), ram[..];
      GrantFits(h, h.blocks[kg], m);
      GrantFits(h, g, m);
      StoreAll(ram, dst, ram[rmem..rmem + len]);
      ghost var m1 := ram[..];
      CopyKeepsHeap(m, m1, h, g, rmem, len);
      FreeBlock(rmem - HEADER, kg);
      MoveKeepsOthers(m, m1, ram[..], h, kg, g);
      MoveCopies(m, m1, ram[..], h, kg, g, len);
    }

    /** The last case of rt_realloc: allocate, copy, free. */
    method MoveBlock(rmem: nat, n: nat, room: nat, ghost k: nat) returns (r: Option<nat>)
      requires Valid() && n < WORD && n % 4 == 0 && HeapCalls.Searchable(Abs(), n)
      requires k < |blocks| && blocks[k].used && rmem == blocks[k].start + HEADER && blocks[k].Room() == room
      modifies this`lfree, this`usedMem, this`maxMem, this`blocks, ram
      ensures Valid() && (Abs(), r) == HeapCalls.Move(old(Abs()), k, n)
      ensures KeepsLive(old(ram[..]), ram[..], old(blocks), k)
      ensures r == None ==> KeepsPayload(old(ram[..]), ram[..], old(blocks)[k])
      ensures r.Some? ==> CopiedFront(old(ram[..]), rmem, ram[..], r.value, MinNat(room, n))
    {
      hide HeaderAt, KeepsPayload, KeepsLive, KeepsOthers, Represents, WellFormed, FreeAt, CopiedFront, MallocAt,
          Grants, Chosen, Wanted;
      ghost var h, m := Abs(), ram[..];
      ghost var kg := HeapCalls.Moved(h, k, n);
      r := Malloc(n);
      ghost var m1 := ram[..];
      MallocKeptPayload(h, n, m, m1);
      if r != None {
        ghost var g := GrantIsFresh(h, n);
        CopyThenFree(rmem, r.value, if room < n then room else n, kg, g);
        MoveKeepsAll(m, m1, ram[..], h, k, HeapLayout.Malloc(h, n).0.blocks, kg, g);
        CopiedFromOld(m, m1, ram[..], h.blocks[k], r.value, MinNat(room, n));
      }
    }
  }

  function MinNat(a: nat, b: nat): (r: nat)
    ensures r <= a && r <= b && (r == a || r == b)
  {
    if a < b then a else b
  }

  /** The n bytes at q in m' are those at p in m. */
  ghost predicate CopiedFront(m: seq<byte>, p: nat, m': seq<byte>, q: nat, n: nat) {
    p + n <= |m| && q + n <= |m'| && m'[q..q + n] == m[p..p + n]
  }

  /** What the search loop reads at block i, and where it goes from there. */
  lemma SearchStep(h: Heap, m: seq<byte>, i: nat, s: nat)
    requires WellFormed(h) && Represents(m, h.blocks, h.End()) && i <= |h.blocks|
    requires (if i < |h.blocks| then h.blocks[i].start else h.End()) < h.size
    ensures i < |h.blocks| && h.blocks[i].start + HEADER <= |m|
    ensures var hd := HeaderAt(m, h.blocks[i].start);
            && h.blocks[i].start + HEADER <= hd.next <= h.End()
            && hd.next == (if i + 1 < |h.blocks| then h.blocks[i + 1].start else h.End())
            && (hd.used == 0 && hd.next - (h.blocks[i].start + HEADER) >= s <==> Fits(h.blocks[i], s))
            && (Fits(h.blocks[i], s) ==> FirstFit(h.blocks, i, s) == i)
            && (!Fits(h.blocks[i], s) ==> FirstFit(h.blocks, i, s) == FirstFit(h.blocks, i + 1, s))
  {
    if i < |h.blocks| {
      HeaderOfBlock(m, h.blocks, h.End(), i);
    }
  }

  lemma LfreeIsABlock(h: Heap)
    requires WellFormed(h)
    ensures var i := IndexOf(h.blocks, h.lfree); h.lfree == if i < |h.blocks| then h.blocks[i].start else h.End()
  {}

  lemma StartsIncreaseFrom(h: Heap, i: nat)
    requires WellFormed(h)
    ensures forall j :: i <= j < |h.blocks| ==> h.blocks[i].start <= h.blocks[j].start
  {
    AllOrdered(h.blocks, h.End());
  }

  lemma OldHeaderKept(m: seq<byte>, m1: seq<byte>, bs: seq<Block>, end: nat, k: nat, p2: nat, hd: Header)
    requires Tiles(bs, end) && k < |bs| && bs[k].start + HEADER <= p2 && p2 + HEADER <= bs[k].Limit()
    requires Wrote(m, m1, p2, hd)
    ensures HeaderAt(m1, bs[k].start) == HeaderAt(m, bs[k].start)
  {
    hide HeaderAt;
    OtherHeaderUnchanged(m, m1, p2, hd, bs[k].start);
  }

  lemma MallocKeepsStart(h: Heap, k: nat, s: nat)
    requires k < |h.blocks| && Fits(h.blocks[k], s)
    ensures k < |MallocAt(h, k, s).blocks| && MallocAt(h, k, s).blocks[k].start == h.blocks[k].start
  {}

  lemma LivePointersAreInside(h: Heap)
    requires WellFormed(h)
    ensures forall p :: Live(h, p) ==> HEADER <= p < h.End()
  {
    AllOrdered(h.blocks, h.End());
  }

  lemma LiveThroughMark(m: seq<byte>, m1: seq<byte>, m2: seq<byte>, bs: seq<Block>, k: nat)
    requires k < |bs| && bs[k].used
    requires forall i :: 0 <= i < |bs| ==> KeepsPayload(m, m1, bs[i])
    requires KeepsLive(m1, m2, MarkBlock(bs, k, false), -1)
    ensures KeepsLive(m, m2, bs, k)
  {
    forall i | 0 <= i < |bs| && bs[i].used && i != k
      ensures KeepsPayload(m, m2, bs[i])
    {
      assert MarkBlock(bs, k, false)[i] == bs[i];
      KeepsPayloadTwice(m, m1, m2, bs[i]);
    }
  }

  lemma ClosingHeaderReads(m: seq<byte>, bs: seq<Block>, end: nat)
    requires Represents(m, bs, end)
    ensures |m| == end + HEADER && HeaderAt(m, end).used == 1 && HeaderAt(m, end).next == end
  {}

  lemma ClosingIsLast(bs: seq<Block>, end: nat, j: nat)
    requires Tiles(bs, end) && j <= |bs|
    ensures j < |bs| ==> bs[j].start < end
  {
    AllOrdered(bs, end);
  }

  lemma NothingChanged(m: seq<byte>, bs: seq<Block>)
    ensures KeepsLive(m, m, bs, -1)
  {}

  lemma InitialRepresents(m: seq<byte>, m': seq<byte>, payload: nat)
    requires |m| == payload + 2 * HEADER && HeaderAt(m, 0) == Header(HEAP_MAGIC, 0, payload + HEADER, 0)
    requires Wrote(m, m', payload + HEADER, Header(HEAP_MAGIC, 1, payload + HEADER, payload + HEADER))
    ensures Represents(m', InitialHeap(payload).blocks, payload + HEADER)
  {
    hide HeaderAt;
    var closing := Header(HEAP_MAGIC, 1, payload + HEADER, payload + HEADER);
    WroteReads(m, m', payload + HEADER, closing);
    OtherHeaderUnchanged(m, m', payload + HEADER, closing, 0);
  }

  /** What is read from the header of block k. */
  lemma HeaderOfBlock(m: seq<byte>, bs: seq<Block>, end: nat, k: nat)
    requires Tiles(bs, end) && Represents(m, bs, end) && k < |bs|
    ensures bs[k].start + HEADER <= bs[k].Limit() <= end && |m| == end + HEADER
    ensures HeaderAt(m, bs[k].start).used == (if bs[k].used then 1 else 0)
    ensures HeaderAt(m, bs[k].start).next == bs[k].Limit()
    ensures HeaderAt(m, bs[k].start).prev == PreviousStart(bs, k)
    ensures k + 1 < |bs| ==>
              && bs[k].Limit() == bs[k + 1].start
              && HeaderAt(m, bs[k].Limit()).used == (if bs[k + 1].used then 1 else 0)
    ensures k + 1 == |bs| ==> bs[k].Limit() == end
    ensures if k == 0 then bs[k].start == 0 else bs[k - 1].start < bs[k].start
  {
    AllOrdered(bs, end);
    assert Describes(HeaderAt(m, bs[k].start), bs, k);
    if k + 1 < |bs| {
      assert Describes(HeaderAt(m, bs[k + 1].start), bs, k + 1);
    }
  }

  /** Bytes of used blocks survive both joins. */
  lemma LiveThroughPlug(m: seq<byte>, m1: seq<byte>, m2: seq<byte>, bs: seq<Block>, k: nat)
    requires k < |bs| && !bs[k].used
    requires KeepsLive(m, m1, bs, -1) && KeepsLive(m1, m2, PlugForward(bs, k), -1)
    ensures KeepsLive(m, m2, bs, -1)
  {
    forall i | 0 <= i < |bs| && bs[i].used
      ensures KeepsPayload(m, m2, bs[i])
    {
      var f := PlugForward(bs, k);
      var j := if !NextIsFree(bs, k) || i < k then i else i - 1;
      assert f[j] == bs[i];
      KeepsPayloadTwice(m, m1, m2, bs[i]);
    }
  }

  // ----- Bytes across rt_realloc -----

  lemma KeptAll(m: seq<byte>, bs: seq<Block>)
    ensures forall k :: KeepsLive(m, m, bs, k)
    ensures forall b :: KeepsPayload(m, m, b)
  {}

  lemma UsedBlockReads(m: seq<byte>, bs: seq<Block>, end: nat, k: nat)
    requires Represents(m, bs, end) && k < |bs| && bs[k].used
    ensures HeaderAt(m, bs[k].start).used == 1 && HeaderAt(m, bs[k].start).magic == HEAP_MAGIC
  {
    assert Describes(HeaderAt(m, bs[k].start), bs, k);
  }

  lemma SplitGives(bs: seq<Block>, k: nat, n: nat)
    requires k < |bs| && bs[k].len >= HEADER + n
    ensures var r := SplitBlock(bs, k, n);
            k + 1 < |r| && r[k + 1].start == bs[k].start + HEADER + n && !r[k + 1].used
  {}

  lemma LiveThroughShrink(m: seq<byte>, m1: seq<byte>, m2: seq<byte>, bs: seq<Block>, k: nat, n: nat)
    requires k < |bs| && bs[k].len >= HEADER + n
    requires forall i :: 0 <= i < |bs| && i != k ==> KeepsPayload(m, m1, bs[i])
    requires KeepsPayload(m, m1, Block(bs[k].start, HEADER + n, true))
    requires KeepsLive(m1, m2, SplitBlock(bs, k, n), -1)
    ensures KeepsLive(m, m2, bs, k)
    ensures KeepsPayload(m, m2, Block(bs[k].start, HEADER + n, true))
  {
    hide KeepsPayload;
    var r := SplitBlock(bs, k, n);
    assert r[k] == Block(bs[k].start, HEADER + n, true);
    KeepsPayloadTwice(m, m1, m2, r[k]);
    forall i | 0 <= i < |bs| && bs[i].used && i != k
      ensures KeepsPayload(m, m2, bs[i])
    {
      assert r[if i < k then i else i + 1] == bs[i];
      KeepsPayloadTwice(m, m1, m2, bs[i]);
    }
  }

  lemma FrontOfPayload(m: seq<byte>, m': seq<byte>, b: Block, n: nat)
    requires KeepsPayload(m, m', b) && n <= b.Room() && b.Limit() <= |m|
    ensures CopiedFront(m, b.start + HEADER, m', b.start + HEADER, n)
  {}

  lemma MallocKeptPayload(h: Heap, n: nat, m: seq<byte>, m1: seq<byte>)
    requires KeepsLive(m, m1, h.blocks, -1)
    ensures forall i :: 0 <= i < |h.blocks| && h.blocks[i].used ==> KeepsPayload(m, m1, h.blocks[i])
    ensures forall k :: KeepsLive(m, m1, h.blocks, k)
  {}

  /** What a granted request owns afterwards. */
  lemma GrantIsFresh(h: Heap, n: nat) returns (g: Block)
    requires WellFormed(h) && HeapLayout.Malloc(h, n).1.Some? && n < WORD && n % 4 == 0
    ensures g.start + HEADER == HeapLayout.Malloc(h, n).1.value && g.Room() >= n
    ensures UsedBlocks(HeapLayout.Malloc(h, n).0.blocks) == UsedBlocks(h.blocks) + {g}
    ensures g !in UsedBlocks(h.blocks)
    ensures g in HeapLayout.Malloc(h, n).0.blocks && g.used
  {
    var k := Chosen(h, n);
    g := Granted(h, k, Wanted(n));
    UsedAfterMalloc(h, k, Wanted(n));
    assert g in UsedBlocks(HeapLayout.Malloc(h, n).0.blocks);
  }

  lemma GrantFits(h: Heap, g: Block, m: seq<byte>)
    requires WellFormed(h) && g in h.blocks && Represents(m, h.blocks, h.End())
    ensures g.start + HEADER <= g.Limit() <= h.End() && |m| == h.End() + HEADER
  {
    AllOrdered(h.blocks, h.End());
  }

  /** Writing into one region touches no header and no other region. */
  lemma CopyKeepsHeap(m: seq<byte>, m': seq<byte>, h: Heap, g: Block, p: nat, len: nat)
    requires WellFormed(h) && g in h.blocks && Represents(m, h.blocks, h.End()) && len <= g.Room() && p + len <= |m|
    requires g.start + HEADER + len <= |m| && m' == Splice(m, g.start + HEADER, m[p..p + len])
    ensures Represents(m', h.blocks, h.End())
    ensures forall b :: b in h.blocks && b != g ==> KeepsPayload(m, m', b)
  {
    AllOrdered(h.blocks, h.End());
    var j :| 0 <= j < |h.blocks| && h.blocks[j] == g;
    HeaderOutsideRegion(m, m', g, h.End());
    forall i | 0 <= i < |h.blocks|
      ensures Describes(HeaderAt(m', h.blocks[i].start), h.blocks, i)
    {
      assert Describes(HeaderAt(m, h.blocks[i].start), h.blocks, i);
      HeaderOutsideRegion(m, m', g, h.blocks[i].start);
    }
    forall b | b in h.blocks && b != g
      ensures KeepsPayload(m, m', b)
    {
      OwnedRegionsAreDisjoint(h, b, g);
    }
  }

  lemma HeaderOutsideRegion(m: seq<byte>, m': seq<byte>, g: Block, q: nat)
    requires |m'| == |m| && (q + HEADER <= g.start + HEADER || g.Limit() <= q)
    requires forall a :: 0 <= a < |m| && !(g.start + HEADER <= a < g.Limit()) ==> m'[a] == m[a]
    ensures HeaderAt(m', q) == HeaderAt(m, q)
  {}

  lemma SurvivesFree(m: seq<byte>, m': seq<byte>, h: Heap, kg: nat, b: Block)
    requires kg < |h.blocks| && KeepsLive(m, m', h.blocks, kg) && b in UsedBlocks(h.blocks) && b != h.blocks[kg]
    ensures KeepsPayload(m, m', b)
  {
    var i :| 0 <= i < |h.blocks| && h.blocks[i] == b;
  }

  /** Every used block but number kg and but g keeps its bytes. */
  ghost predicate KeepsOthers(m: seq<byte>, m': seq<byte>, bs: seq<Block>, kg: nat, g: Block)
    requires kg < |bs|
  {
    forall b :: b in UsedBlocks(bs) && b != g && b != bs[kg] ==> KeepsPayload(m, m', b)
  }

  lemma MoveKeepsOthers(m: seq<byte>, m1: seq<byte>, m2: seq<byte>, h: Heap, kg: nat, g: Block)
    requires kg < |h.blocks| && KeepsLive(m1, m2, h.blocks, kg)
    requires forall b :: b in h.blocks && b != g ==> KeepsPayload(m, m1, b)
    ensures KeepsOthers(m, m2, h.blocks, kg, g)
  {
    hide KeepsPayload, KeepsLive;
    forall b | b in UsedBlocks(h.blocks) && b != g && b != h.blocks[kg]
      ensures KeepsPayload(m, m2, b)
    {
      SurvivesFree(m1, m2, h, kg, b);
      KeepsPayloadTwice(m, m1, m2, b);
    }
  }

  lemma MoveCopies(m: seq<byte>, m1: seq<byte>, m2: seq<byte>, h: Heap, kg: nat, g: Block, len: nat)
    requires kg < |h.blocks| && g in UsedBlocks(h.blocks) && g != h.blocks[kg] && KeepsLive(m1, m2, h.blocks, kg)
    requires len <= h.blocks[kg].Room() && len <= g.Room() && h.blocks[kg].start + HEADER + len <= |m|
        && g.Limit() <= |m|
    requires m1 == Splice(m, g.start + HEADER, m[h.blocks[kg].start + HEADER..h.blocks[kg].start + HEADER + len])
    ensures CopiedFront(m, h.blocks[kg].start + HEADER, m2, g.start + HEADER, len)
  {
    hide KeepsPayload, KeepsLive, CopiedFront;
    KeptAll(m, h.blocks);
    SurvivesFree(m1, m2, h, kg, g);
    CopyArrives(m, m, m1, m2, h.blocks[kg], g, len);
  }

  lemma MoveKeepsAll(m: seq<byte>, m1: seq<byte>, m2: seq<byte>, h: Heap, k: nat,
                     bs: seq<Block>, kg: nat, g: Block)
    requires WellFormed(h) && k < |h.blocks| && h.blocks[k].used && kg < |bs| && bs[kg] == h.blocks[k]
    requires UsedBlocks(bs) == UsedBlocks(h.blocks) + {g} && g !in UsedBlocks(h.blocks)
    requires KeepsLive(m, m1, h.blocks, -1) && KeepsOthers(m1, m2, bs, kg, g)
    ensures KeepsLive(m, m2, h.blocks, k)
  {
    StartsDiffer(h.blocks, h.End(), k);
    hide KeepsPayload, WellFormed;
    forall i | 0 <= i < |h.blocks| && h.blocks[i].used && i != k
      ensures KeepsPayload(m, m2, h.blocks[i])
    {
      assert h.blocks[i] in UsedBlocks(h.blocks);
      KeepsPayloadTwice(m, m1, m2, h.blocks[i]);
    }
  }

  lemma CopiedFromOld(m: seq<byte>, m1: seq<byte>, m2: seq<byte>, b: Block, q: nat, len: nat)
    requires KeepsPayload(m, m1, b) && CopiedFront(m1, b.start + HEADER, m2, q, len) && len <= b.Room()
    ensures CopiedFront(m, b.start + HEADER, m2, q, len)
  {
    var p := b.start + HEADER;
    assert m1[p..p + len] == m[p..p + len];
  }

  lemma CopyArrives(m: seq<byte>, m1: seq<byte>, m2: seq<byte>, m3: seq<byte>, b: Block, g: Block, len: nat)
    requires KeepsPayload(m, m1, b) && KeepsPayload(m2, m3, g) && len <= b.Room() && len <= g.Room()
    requires b.start + HEADER + len <= |m1| && g.Limit() <= |m1|
    requires m2 == Splice(m1, g.start + HEADER, m1[b.start + HEADER..b.start + HEADER + len])
    ensures CopiedFront(m, b.start + HEADER, m3, g.start + HEADER, len)
  {
    var p, q := b.start + HEADER, g.start + HEADER;
    assert m1[p..p + len] == m[p..p + len];
    assert m2[q..q + len] == m1[p..p + len];
    assert m3[q..q + len] == m2[q..q + len];
  }
}
