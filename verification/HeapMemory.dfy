/** The bytes of the heap region and the block headers that lie in them. Addresses are
    offsets from the first byte of the region; numbers are stored low byte first. */
module HeapMemory {
  import opened Buffers

  newtype byte = x: int | 0 <= x < 256

  const HEAP_MAGIC := 0x1ea0
  const HEADER := 12

  // ----- Numbers in memory -----

  function Get16(m: seq<byte>, a: nat): nat
    requires a + 2 <= |m|
  {
    m[a] as nat + 0x100 * m[a + 1] as nat
  }

  function Get32(m: seq<byte>, a: nat): nat
    requires a + 4 <= |m|
  {
    m[a] as nat + 0x100 * m[a + 1] as nat + 0x1_0000 * m[a + 2] as nat + 0x100_0000 * m[a + 3] as nat
  }

  function Bytes16(v: nat): (b: seq<byte>)
    requires v < 0x1_0000
    ensures |b| == 2
  {
    [(v % 0x100) as byte, (v / 0x100) as byte]
  }

  function Bytes32(v: nat): (b: seq<byte>)
    requires v < 0x1_0000_0000
    ensures |b| == 4
  {
    [(v % 0x100) as byte, (v / 0x100 % 0x100) as byte, (v / 0x1_0000 % 0x100) as byte, (v / 0x100_0000) as byte]
  }

  lemma Bytes32Value(v: nat)
    requires v < 0x1_0000_0000
    ensures Get32(Bytes32(v), 0) == v
  {
    assert v / 0x100 / 0x100 == v / 0x1_0000;
    assert v / 0x1_0000 / 0x100 == v / 0x100_0000;
  }

  // ----- Headers -----

  /** struct heap_mem. */
  datatype Header = Header(magic: nat, used: nat, next: nat, prev: nat)

  /** The header at p; any value when p is too near the end of the region. */
  function HeaderAt(m: seq<byte>, p: nat): Header {
    if p + HEADER <= |m|
    then Header(Get16(m, p), Get16(m, p + 2), Get32(m, p + 4), Get32(m, p + 8))
    else Header(0, 0, 0, 0)
  }

  function PutMagic(m: seq<byte>, p: nat, v: nat): seq<byte>
    requires p + HEADER <= |m| && v < 0x1_0000
  {
    Splice(m, p, Bytes16(v))
  }

  function PutUsed(m: seq<byte>, p: nat, v: nat): seq<byte>
    requires p + HEADER <= |m| && v < 0x1_0000
  {
    Splice(m, p + 2, Bytes16(v))
  }

  function PutNext(m: seq<byte>, p: nat, v: nat): seq<byte>
    requires p + HEADER <= |m| && v < 0x1_0000_0000
  {
    Splice(m, p + 4, Bytes32(v))
  }

  function PutPrev(m: seq<byte>, p: nat, v: nat): seq<byte>
    requires p + HEADER <= |m| && v < 0x1_0000_0000
  {
    Splice(m, p + 8, Bytes32(v))
  }

  /** m' differs from m at most inside the twelve bytes of the header at p, and that header
      now reads h. */
  ghost predicate Wrote(m: seq<byte>, m': seq<byte>, p: nat, h: Header) {
    && |m'| == |m| && p + HEADER <= |m|
    && HeaderAt(m', p) == h
    && (forall a :: 0 <= a < |m| && !(p <= a < p + HEADER) ==> m'[a] == m[a])
  }

  lemma WroteReads(m: seq<byte>, m': seq<byte>, p: nat, h: Header)
    requires Wrote(m, m', p, h)
    ensures |m'| == |m| && HeaderAt(m', p) == h
  {}

  /** Two headers that do not overlap. */
  predicate Apart(p: nat, q: nat) {
    p + HEADER <= q || q + HEADER <= p
  }

  lemma OtherHeaderUnchanged(m: seq<byte>, m': seq<byte>, p: nat, h: Header, q: nat)
    requires Wrote(m, m', p, h) && Apart(p, q)
    ensures HeaderAt(m', q) == HeaderAt(m, q)
  {}

  lemma PutMagicWrote(m: seq<byte>, p: nat, v: nat)
    requires p + HEADER <= |m| && v < 0x1_0000
    ensures Wrote(m, PutMagic(m, p, v), p, HeaderAt(m, p).(magic := v))
  {}

  lemma PutUsedWrote(m: seq<byte>, p: nat, v: nat)
    requires p + HEADER <= |m| && v < 0x1_0000
    ensures Wrote(m, PutUsed(m, p, v), p, HeaderAt(m, p).(used := v))
  {}

  lemma PutNextWrote(m: seq<byte>, p: nat, v: nat)
    requires p + HEADER <= |m| && v < 0x1_0000_0000
    ensures Wrote(m, PutNext(m, p, v), p, HeaderAt(m, p).(next := v))
  {
    Bytes32Value(v);
  }

  lemma PutPrevWrote(m: seq<byte>, p: nat, v: nat)
    requires p + HEADER <= |m| && v < 0x1_0000_0000
    ensures Wrote(m, PutPrev(m, p, v), p, HeaderAt(m, p).(prev := v))
  {
    Bytes32Value(v);
  }
}
