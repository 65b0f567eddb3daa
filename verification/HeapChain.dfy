/** How the headers in memory describe the block sequence, and what the header writes of each
    call do to that description and to the bytes that callers own. */
module HeapChain {
  import opened HeapMemory
  import opened HeapLayout
  import opened HeapInvariant

  function PreviousStart(bs: seq<Block>, i: nat): nat
    requires i < |bs|
  {
    if i == 0 then 0 else bs[i - 1].start
  }

  /** A header describes block i: next and prev lead to its neighbours, and a used block
      carries the magic number. */
  ghost predicate Describes(hd: Header, bs: seq<Block>, i: nat)
    requires i < |bs|
  {
    && hd.used == (if bs[i].used then 1 else 0)
    && hd.next == bs[i].Limit()
    && hd.prev == PreviousStart(bs, i)
    && (bs[i].used ==> hd.magic == HEAP_MAGIC)
  }

  /** The chain of headers in memory is the block sequence. Nothing is said of the closing
      header's prev, which a split does not maintain. */
  ghost predicate Represents(m: seq<byte>, bs: seq<Block>, end: nat) {
    && |m| == end + HEADER
    && (forall i :: 0 <= i < |bs| ==> Describes(HeaderAt(m, bs[i].start), bs, i))
    && HeaderAt(m, end).used == 1 && HeaderAt(m, end).next == end
  }

  // ----- Bytes that belong to callers -----

  ghost predicate KeepsPayload(m: seq<byte>, m': seq<byte>, b: Block) {
    |m'| == |m| && forall a :: b.start + HEADER <= a < b.Limit() && a < |m| ==> m'[a] == m[a]
  }

  /** Every used block but number k keeps its bytes. */
  ghost predicate KeepsLive(m: seq<byte>, m': seq<byte>, bs: seq<Block>, k: int) {
    forall i :: 0 <= i < |bs| && bs[i].used && i != k ==> KeepsPayload(m, m', bs[i])
  }

  /** A header that does not overlap the bytes of a block. */
  predicate OutsidePayload(p: nat, b: Block) {
    p + HEADER <= b.start + HEADER || b.Limit() <= p
  }

  lemma WriteKeepsPayload(m: seq<byte>, m': seq<byte>, p: nat, hd: Header, b: Block)
    requires Wrote(m, m', p, hd) && OutsidePayload(p, b)
    ensures KeepsPayload(m, m', b)
  {}

  // ----- One header write after another -----

  lemma WroteTwice(m: seq<byte>, m1: seq<byte>, m2: seq<byte>, p: nat, h1: Header, h2: Header)
    requires Wrote(m, m1, p, h1) && Wrote(m1, m2, p, h2)
    ensures Wrote(m, m2, p, h2)
  {}

  /** All headers of a tiling, the closing one included, lie apart from each other. */
  lemma HeadersApart(bs: seq<Block>, end: nat, i: nat)
    requires Tiles(bs, end) && i < |bs|
    ensures forall j :: 0 <= j < |bs| && j != i ==> Apart(bs[i].start, bs[j].start)
    ensures Apart(bs[i].start, end)
    ensures forall j :: 0 <= j < |bs| ==> OutsidePayload(bs[i].start, bs[j])
  {
    AllOrdered(bs, end);
  }

  lemma ClosingHeaderOutside(bs: seq<Block>, end: nat)
    requires Tiles(bs, end)
    ensures forall j :: 0 <= j < |bs| ==> OutsidePayload(end, bs[j]) && Apart(end, bs[j].start)
  {
    AllOrdered(bs, end);
  }

  /** A write to the header of block k leaves the other headers and all payloads alone. */
  lemma WriteAtBlock(m: seq<byte>, m': seq<byte>, bs: seq<Block>, end: nat, k: nat, hd: Header)
    requires Tiles(bs, end) && k < |bs| && Wrote(m, m', bs[k].start, hd)
    ensures forall i :: 0 <= i < |bs| && i != k ==> HeaderAt(m', bs[i].start) == HeaderAt(m, bs[i].start)
    ensures HeaderAt(m', end) == HeaderAt(m, end)
  {
    hide HeaderAt, Wrote;
    HeadersApart(bs, end, k);
    OtherHeaderUnchanged(m, m', bs[k].start, hd, end);
    forall i | 0 <= i < |bs| && i != k
      ensures HeaderAt(m', bs[i].start) == HeaderAt(m, bs[i].start)
    {
      OtherHeaderUnchanged(m, m', bs[k].start, hd, bs[i].start);
    }
  }

  lemma WriteAtBlockKeepsPayloads(m: seq<byte>, m': seq<byte>, bs: seq<Block>, end: nat, k: nat, hd: Header)
    requires Tiles(bs, end) && k < |bs| && Wrote(m, m', bs[k].start, hd)
    ensures forall i :: 0 <= i < |bs| ==> KeepsPayload(m, m', bs[i])
  {
    hide HeaderAt, Wrote, KeepsPayload;
    HeadersApart(bs, end, k);
    forall i | 0 <= i < |bs|
      ensures KeepsPayload(m, m', bs[i])
    {
      WriteKeepsPayload(m, m', bs[k].start, hd, bs[i]);
    }
  }

  /** The same for a write to the header after block k, which may be the closing one. */
  lemma WriteAfterBlock(m: seq<byte>, m': seq<byte>, bs: seq<Block>, end: nat, k: nat, hd: Header)
    requires Tiles(bs, end) && k < |bs| && Wrote(m, m', bs[k].Limit(), hd)
    ensures forall i :: 0 <= i < |bs| && i != k + 1 ==> HeaderAt(m', bs[i].start) == HeaderAt(m, bs[i].start)
    ensures k + 1 < |bs| ==> HeaderAt(m', end) == HeaderAt(m, end)
    ensures forall i :: 0 <= i < |bs| ==> KeepsPayload(m, m', bs[i])
  {
    if k + 1 < |bs| {
      assert bs[k + 1].start == bs[k].Limit();
      WriteAtBlock(m, m', bs, end, k + 1, hd);
      WriteAtBlockKeepsPayloads(m, m', bs, end, k + 1, hd);
    } else {
      ClosingWrite(m, m', bs, end, hd);
    }
  }

  lemma ClosingWrite(m: seq<byte>, m': seq<byte>, bs: seq<Block>, end: nat, hd: Header)
    requires Tiles(bs, end) && Wrote(m, m', end, hd)
    ensures forall i :: 0 <= i < |bs| ==> HeaderAt(m', bs[i].start) == HeaderAt(m, bs[i].start)
    ensures forall i :: 0 <= i < |bs| ==> KeepsPayload(m, m', bs[i])
  {
    hide HeaderAt, Wrote, KeepsPayload;
    ClosingHeaderOutside(bs, end);
    forall i | 0 <= i < |bs|
      ensures HeaderAt(m', bs[i].start) == HeaderAt(m, bs[i].start) && KeepsPayload(m, m', bs[i])
    {
      OtherHeaderUnchanged(m, m', end, hd, bs[i].start);
      WriteKeepsPayload(m, m', end, hd, bs[i]);
    }
  }

  lemma KeepsPayloadTwice(m: seq<byte>, m1: seq<byte>, m2: seq<byte>, b: Block)
    requires KeepsPayload(m, m1, b) && KeepsPayload(m1, m2, b)
    ensures KeepsPayload(m, m2, b)
  {}

  // ----- A block changes its flag -----

  lemma MarkRepresents(m: seq<byte>, m': seq<byte>, bs: seq<Block>, end: nat, k: nat, hd: Header)
    requires Tiles(bs, end) && Represents(m, bs, end) && k < |bs|
    requires Wrote(m, m', bs[k].start, hd)
    requires hd.next == bs[k].Limit() && hd.prev == PreviousStart(bs, k)
    requires hd.used == 0 || (hd.used == 1 && hd.magic == HEAP_MAGIC)
    ensures Represents(m', MarkBlock(bs, k, hd.used == 1), end)
  {
    hide HeaderAt, Tiles, Wrote;
    WriteAtBlock(m, m', bs, end, k, hd);
    WroteReads(m, m', bs[k].start, hd);
    var r := MarkBlock(bs, k, hd.used == 1);
    forall i | 0 <= i < |bs|
      ensures Describes(HeaderAt(m', r[i].start), r, i)
    {
      assert Describes(HeaderAt(m, bs[i].start), bs, i);
    }
  }

  // ----- A block takes in the block after it -----

  /** The two writes of a join: next of block k, then prev of the header after block k + 1. */
  ghost predicate JoinWrites(m: seq<byte>, m1: seq<byte>, m2: seq<byte>, bs: seq<Block>, k: nat) {
    && k + 1 < |bs|
    && Wrote(m, m1, bs[k].start, HeaderAt(m, bs[k].start).(next := bs[k + 1].Limit()))
    && Wrote(m1, m2, bs[k + 1].Limit(), HeaderAt(m1, bs[k + 1].Limit()).(prev := bs[k].start))
  }

  lemma JoinKeepsPayloads(m: seq<byte>, m1: seq<byte>, m2: seq<byte>, bs: seq<Block>, end: nat, k: nat)
    requires Tiles(bs, end) && JoinWrites(m, m1, m2, bs, k)
    ensures forall i :: 0 <= i < |bs| ==> KeepsPayload(m, m2, bs[i])
  {
    hide HeaderAt, KeepsPayload, Wrote, Tiles;
    WriteAtBlockKeepsPayloads(m, m1, bs, end, k, HeaderAt(m, bs[k].start).(next := bs[k + 1].Limit()));
    WriteAfterBlock(m1, m2, bs, end, k + 1, HeaderAt(m1, bs[k + 1].Limit()).(prev := bs[k].start));
    forall i | 0 <= i < |bs|
      ensures KeepsPayload(m, m2, bs[i])
    {
      KeepsPayloadTwice(m, m1, m2, bs[i]);
    }
  }

  /** What the headers of the old blocks read after the two writes. */
  lemma JoinHeaders(m: seq<byte>, m1: seq<byte>, m2: seq<byte>, bs: seq<Block>, end: nat, k: nat)
    requires Tiles(bs, end) && JoinWrites(m, m1, m2, bs, k)
    ensures |m2| == |m|
    ensures HeaderAt(m2, bs[k].start) == HeaderAt(m, bs[k].start).(next := bs[k + 1].Limit())
    ensures k + 2 < |bs| ==> HeaderAt(m2, bs[k + 2].start) == HeaderAt(m, bs[k + 2].start).(prev := bs[k].start)
    ensures forall i :: 0 <= i < |bs| && i != k && i != k + 2 ==> HeaderAt(m2, bs[i].start) == HeaderAt(m, bs[i].start)
    ensures HeaderAt(m2, end).used == HeaderAt(m, end).used && HeaderAt(m2, end).next == HeaderAt(m, end).next
  {
    hide HeaderAt, Wrote;
    var h1 := HeaderAt(m, bs[k].start).(next := bs[k + 1].Limit());
    var h2 := HeaderAt(m1, bs[k + 1].Limit()).(prev := bs[k].start);
    WroteReads(m, m1, bs[k].start, h1);
    WroteReads(m1, m2, bs[k + 1].Limit(), h2);
    WriteAtBlock(m, m1, bs, end, k, h1);
    WriteAfterBlock(m1, m2, bs, end, k + 1, h2);
    assert k + 2 < |bs| ==> bs[k + 1 + 1].start == bs[k + 1].Limit();
  }

  lemma JoinHeadersDescribe(m: seq<byte>, m2: seq<byte>, bs: seq<Block>, end: nat, k: nat)
    requires Represents(m, bs, end) && k + 1 < |bs| && bs[k].used == bs[k + 1].used && bs[k + 1].start == bs[k].Limit()
    requires |m2| == |m|
    requires HeaderAt(m2, bs[k].start) == HeaderAt(m, bs[k].start).(next := bs[k + 1].Limit())
    requires k + 2 < |bs| ==> HeaderAt(m2, bs[k + 2].start) == HeaderAt(m, bs[k + 2].start).(prev := bs[k].start)
    requires forall i :: 0 <= i < |bs| && i != k && i != k + 2 ==> HeaderAt(m2, bs[i].start) == HeaderAt(m, bs[i].start)
    requires HeaderAt(m2, end).used == HeaderAt(m, end).used && HeaderAt(m2, end).next == HeaderAt(m, end).next
    ensures Represents(m2, JoinNext(bs, k), end)
  {
    hide HeaderAt;
    var r := JoinNext(bs, k);
    forall i | 0 <= i < |r|
      ensures Describes(HeaderAt(m2, r[i].start), r, i)
    {
      var j := if i <= k then i else i + 1;
      assert Describes(HeaderAt(m, bs[j].start), bs, j);
      if i < k {
        assert r[i] == bs[i];
        assert i > 0 ==> r[i - 1] == bs[i - 1];
      } else if i > k {
        assert r[i] == bs[i + 1];
        assert i > k + 1 ==> r[i - 1] == bs[i];
      } else {
        assert k > 0 ==> r[k - 1] == bs[k - 1];
      }
    }
  }

  lemma JoinRepresents(m: seq<byte>, m1: seq<byte>, m2: seq<byte>, bs: seq<Block>, end: nat, k: nat)
    requires Tiles(bs, end) && Represents(m, bs, end) && k + 1 < |bs| && bs[k].used == bs[k + 1].used
    requires JoinWrites(m, m1, m2, bs, k)
    ensures Represents(m2, JoinNext(bs, k), end)
  {
    hide HeaderAt, Represents, JoinWrites, JoinNext;
    JoinHeaders(m, m1, m2, bs, end, k);
    JoinHeadersDescribe(m, m2, bs, end, k);
  }

  // ----- A block is split -----

  /** The writes of a split of block k at p2: the new header, the header of block k, prev of
      the header after it unless that is the closing one, and, when the block was free, its
      magic number last. */
  ghost predicate SplitWrites(m: seq<byte>, m1: seq<byte>, m2: seq<byte>, m3: seq<byte>, m4: seq<byte>,
                              bs: seq<Block>, end: nat, k: nat, size: nat, new_: Header, old_: Header)
  {
    && k < |bs| && bs[k].len >= HEADER + size + HEADER
    && var p, p2 := bs[k].start, bs[k].start + HEADER + size;
    && Wrote(m, m1, p2, new_)
    && Wrote(m1, m2, p, old_)
    && (if k + 1 == |bs| then m3 == m2 else Wrote(m2, m3, bs[k].Limit(), HeaderAt(m2, bs[k].Limit()).(prev := p2)))
    && (if bs[k].used then m4 == m3 && old_.magic == HEAP_MAGIC
        else Wrote(m3, m4, p, HeaderAt(m3, p).(magic := HEAP_MAGIC)))
    && new_.used == 0 && new_.next == bs[k].Limit() && new_.prev == p
    && old_.used == 1 && old_.next == p2 && old_.prev == PreviousStart(bs, k)
  }

  /** The new header lies inside the bytes of block k. */
  lemma WriteInsideBlock(m: seq<byte>, m1: seq<byte>, bs: seq<Block>, end: nat, k: nat, p2: nat, hd: Header)
    requires Tiles(bs, end) && k < |bs| && bs[k].start + HEADER <= p2 && p2 + HEADER <= bs[k].Limit()
    requires Wrote(m, m1, p2, hd)
    ensures forall i :: 0 <= i < |bs| ==> HeaderAt(m1, bs[i].start) == HeaderAt(m, bs[i].start)
    ensures HeaderAt(m1, end) == HeaderAt(m, end)
    ensures forall i :: 0 <= i < |bs| && i != k ==> KeepsPayload(m, m1, bs[i])
    ensures forall a :: bs[k].start + HEADER <= a < p2 ==> m1[a] == m[a]
  {
    hide HeaderAt, KeepsPayload;
    AllOrdered(bs, end);
    OtherHeaderUnchanged(m, m1, p2, hd, end);
    forall i | 0 <= i < |bs|
      ensures HeaderAt(m1, bs[i].start) == HeaderAt(m, bs[i].start)
      ensures i != k ==> KeepsPayload(m, m1, bs[i])
    {
      OtherHeaderUnchanged(m, m1, p2, hd, bs[i].start);
      if i != k {
        WriteKeepsPayload(m, m1, p2, hd, bs[i]);
      }
    }
  }

  lemma SplitHeaders(m: seq<byte>, m1: seq<byte>, m2: seq<byte>, m3: seq<byte>, m4: seq<byte>,
                     bs: seq<Block>, end: nat, k: nat, size: nat, new_: Header, old_: Header)
    requires Tiles(bs, end) && k < |bs| && |m| == end + HEADER
        && SplitWrites(m, m1, m2, m3, m4, bs, end, k, size, new_, old_)
    ensures var p2 := bs[k].start + HEADER + size;
            && |m4| == |m|
            && HeaderAt(m4, p2) == new_ && HeaderAt(m4, bs[k].start) == old_.(magic := HEAP_MAGIC)
            && (k + 1 < |bs| ==> HeaderAt(m4, bs[k + 1].start) == HeaderAt(m, bs[k + 1].start).(prev := p2))
            && (forall i :: 0 <= i < |bs| && i != k && i != k + 1 ==>
                  HeaderAt(m4, bs[i].start) == HeaderAt(m, bs[i].start))
            && HeaderAt(m4, end) == HeaderAt(m, end)
  {
    hide HeaderAt, Wrote;
    var p, p2 := bs[k].start, bs[k].start + HEADER + size;
    WroteReads(m, m1, p2, new_);
    WroteReads(m1, m2, p, old_);
    WriteInsideBlock(m, m1, bs, end, k, p2, new_);
    WriteAtBlock(m1, m2, bs, end, k, old_);
    OtherHeaderUnchanged(m1, m2, p, old_, p2);
    if k + 1 < |bs| {
      assert bs[k + 1].start == bs[k].Limit();
      var h3 := HeaderAt(m2, bs[k].Limit()).(prev := p2);
      WroteReads(m2, m3, bs[k].Limit(), h3);
      WriteAtBlock(m2, m3, bs, end, k + 1, h3);
      OtherHeaderUnchanged(m2, m3, bs[k].Limit(), h3, p2);
    }
    if !bs[k].used {
      var h4 := HeaderAt(m3, p).(magic := HEAP_MAGIC);
      WroteReads(m3, m4, p, h4);
      WriteAtBlock(m3, m4, bs, end, k, h4);
      OtherHeaderUnchanged(m3, m4, p, h4, p2);
    }
  }

  lemma SplitKeepsOthers(m: seq<byte>, m1: seq<byte>, m2: seq<byte>, m3: seq<byte>, m4: seq<byte>,
                         bs: seq<Block>, end: nat, k: nat, size: nat, new_: Header, old_: Header)
    requires Tiles(bs, end) && k < |bs| && |m| == end + HEADER
        && SplitWrites(m, m1, m2, m3, m4, bs, end, k, size, new_, old_)
    ensures forall i :: 0 <= i < |bs| && i != k ==> KeepsPayload(m, m4, bs[i])
  {
    hide HeaderAt, KeepsPayload, Wrote;
    var p, p2 := bs[k].start, bs[k].start + HEADER + size;
    WriteInsideBlock(m, m1, bs, end, k, p2, new_);
    WriteAtBlockKeepsPayloads(m1, m2, bs, end, k, old_);
    if k + 1 < |bs| {
      WriteAfterBlock(m2, m3, bs, end, k, HeaderAt(m2, bs[k].Limit()).(prev := p2));
    }
    if !bs[k].used {
      WriteAtBlockKeepsPayloads(m3, m4, bs, end, k, HeaderAt(m3, p).(magic := HEAP_MAGIC));
    }
    forall i | 0 <= i < |bs| && i != k
      ensures KeepsPayload(m, m4, bs[i])
    {
      KeepsPayloadTwice(m, m1, m2, bs[i]);
      if k + 1 < |bs| {
        KeepsPayloadTwice(m, m2, m3, bs[i]);
      }
      if !bs[k].used {
        KeepsPayloadTwice(m, m3, m4, bs[i]);
      }
    }
  }

  /** A used block that is split keeps the bytes that it still has. */
  lemma SplitKeepsFront(m: seq<byte>, m1: seq<byte>, m2: seq<byte>, m3: seq<byte>, m4: seq<byte>,
                        bs: seq<Block>, end: nat, k: nat, size: nat, new_: Header, old_: Header)
    requires Tiles(bs, end) && k < |bs| && SplitWrites(m, m1, m2, m3, m4, bs, end, k, size, new_, old_)
    requires bs[k].used
    ensures KeepsPayload(m, m4, Block(bs[k].start, HEADER + size, true))
  {
    hide HeaderAt, KeepsPayload, Wrote;
    var p2 := bs[k].start + HEADER + size;
    var kept := Block(bs[k].start, HEADER + size, true);
    WriteKeepsPayload(m, m1, p2, new_, kept);
    WriteKeepsPayload(m1, m2, bs[k].start, old_, kept);
    KeepsPayloadTwice(m, m1, m2, kept);
    if k + 1 < |bs| {
      WriteKeepsPayload(m2, m3, bs[k].Limit(), HeaderAt(m2, bs[k].Limit()).(prev := p2), kept);
      KeepsPayloadTwice(m, m2, m3, kept);
    }
  }

  lemma SplitRepresents(m: seq<byte>, m1: seq<byte>, m2: seq<byte>, m3: seq<byte>, m4: seq<byte>,
                        bs: seq<Block>, end: nat, k: nat, size: nat, new_: Header, old_: Header)
    requires Tiles(bs, end) && Represents(m, bs, end) && k < |bs| && bs[k].len >= HEADER + size + HEADER
    requires SplitWrites(m, m1, m2, m3, m4, bs, end, k, size, new_, old_)
    ensures Represents(m4, SplitBlock(bs, k, size), end)
  {
    hide HeaderAt, Wrote, Tiles, SplitBlock;
    SplitHeaders(m, m1, m2, m3, m4, bs, end, k, size, new_, old_);
    SplitHeadersDescribe(m, m4, bs, end, k, size);
  }

  lemma SplitHeadersDescribe(m: seq<byte>, m3: seq<byte>, bs: seq<Block>, end: nat, k: nat, size: nat)
    requires Tiles(bs, end) && Represents(m, bs, end) && k < |bs| && bs[k].len >= HEADER + size + HEADER
    requires |m3| == |m| && HeaderAt(m3, end) == HeaderAt(m, end)
    requires var p2 := bs[k].start + HEADER + size;
             var old_, new_ := HeaderAt(m3, bs[k].start), HeaderAt(m3, p2);
             && new_.used == 0 && new_.next == bs[k].Limit() && new_.prev == bs[k].start
             && old_.used == 1 && old_.magic == HEAP_MAGIC && old_.next == p2 && old_.prev == PreviousStart(bs, k)
             && (k + 1 < |bs| ==> HeaderAt(m3, bs[k + 1].start) == HeaderAt(m, bs[k + 1].start).(prev := p2))
    requires forall i :: 0 <= i < |bs| && i != k && i != k + 1 ==> HeaderAt(m3, bs[i].start) == HeaderAt(m, bs[i].start)
    ensures Represents(m3, SplitBlock(bs, k, size), end)
  {
    hide HeaderAt, Tiles;
    var r := SplitBlock(bs, k, size);
    forall i | 0 <= i < |r|
      ensures Describes(HeaderAt(m3, r[i].start), r, i)
    {
      if i < k {
        assert r[i] == bs[i] && Describes(HeaderAt(m, bs[i].start), bs, i);
        assert i > 0 ==> r[i - 1] == bs[i - 1];
      } else if i > k + 1 {
        assert r[i] == bs[i - 1] && Describes(HeaderAt(m, bs[i - 1].start), bs, i - 1);
        assert i > k + 2 ==> r[i - 1] == bs[i - 2];
      } else {
        assert k > 0 ==> r[k - 1] == bs[k - 1];
      }
    }
  }
}
