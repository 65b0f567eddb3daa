/** The word-level functions of the cipher: the bit-swap permutations, the round, the key
    schedule and the block operations that the array code of DesContext computes. */
module DesCore {
  import opened DesTables
  import opened WordOps

  /** The two 32-bit working variables of a block operation. */
  datatype Halves = Halves(x: bv32, y: bv32) {
    function Swap(): Halves { Halves(y, x) }
  }

  /** A round function of a half and two subkey words. */
  type RoundFunction = (bv32, bv32, bv32) -> bv32

  // ----- Permutations -----

  /** Initial permutation macro. */
  function Ip(h: Halves): Halves {
    var x, y := h.x, h.y;
    var t := ((x >> 4) ^ y) & 0x0F0F0F0F; var y := y ^ t; var x := x ^ (t << 4);
    var t := ((x >> 16) ^ y) & 0x0000FFFF; var y := y ^ t; var x := x ^ (t << 16);
    var t := ((y >> 2) ^ x) & 0x33333333; var x := x ^ t; var y := y ^ (t << 2);
    var t := ((y >> 8) ^ x) & 0x00FF00FF; var x := x ^ t; var y := y ^ (t << 8);
    var y := ((y << 1) | (y >> 31)) & 0xFFFFFFFF;
    var t := (x ^ y) & 0xAAAAAAAA; var y := y ^ t; var x := x ^ t;
    var x := ((x << 1) | (x >> 31)) & 0xFFFFFFFF;
    Halves(x, y)
  }

  /** Final permutation macro. */
  function Fp(h: Halves): Halves {
    var x, y := h.x, h.y;
    var x := ((x << 31) | (x >> 1)) & 0xFFFFFFFF;
    var t := (x ^ y) & 0xAAAAAAAA; var x := x ^ t; var y := y ^ t;
    var y := ((y << 31) | (y >> 1)) & 0xFFFFFFFF;
    var t := ((y >> 8) ^ x) & 0x00FF00FF; var x := x ^ t; var y := y ^ (t << 8);
    var t := ((y >> 2) ^ x) & 0x33333333; var x := x ^ t; var y := y ^ (t << 2);
    var t := ((x >> 16) ^ y) & 0x0000FFFF; var y := y ^ t; var x := x ^ (t << 16);
    var t := ((x >> 4) ^ y) & 0x0F0F0F0F; var y := y ^ t; var x := x ^ (t << 4);
    Halves(x, y)
  }

  // ----- Rounds -----

  /** The four 6-bit table indices of a sum of half and subkey word, lowest byte first. */
  datatype Indices = Indices(i0: bv32, i1: bv32, i2: bv32, i3: bv32)

  type TableIndices = i: Indices | i.i0 <= 0x3F && i.i1 <= 0x3F && i.i2 <= 0x3F && i.i3 <= 0x3F
    witness Indices(0, 0, 0, 0)

  function IndicesOf(t: bv32): TableIndices {
    Indices(t & 0x3F, (t >> 8) & 0x3F, (t >> 16) & 0x3F, (t >> 24) & 0x3F)
  }

  function EvenLookups(i: TableIndices): bv32 {
    SB8(i.i0) ^ SB6(i.i1) ^ SB4(i.i2) ^ SB2(i.i3)
  }

  function OddLookups(i: TableIndices): bv32 {
    SB7(i.i0) ^ SB5(i.i1) ^ SB3(i.i2) ^ SB1(i.i3)
  }

  function RotateRight4(x: bv32): bv32 {
    (x << 28) | (x >> 4)
  }

  /** What a round adds to the other half. */
  function Lookups(x: bv32, k0: bv32, k1: bv32): bv32 {
    Xor(EvenLookups(IndicesOf(Xor(k0, x))), OddLookups(IndicesOf(Xor(k1, RotateRight4(x)))))
  }

  /** One round in the standard's form: the halves change places. */
  function Round(f: RoundFunction, k0: bv32, k1: bv32, h: Halves): Halves {
    Halves(h.y, Xor(h.x, f(h.y, k0, k1)))
  }

  /** All rounds of a schedule with two words a round. */
  function Rounds(f: RoundFunction, sk: seq<bv32>, h: Halves): Halves
    requires |sk| % 2 == 0
  {
    if sk == [] then h else Rounds(f, sk[2..], Round(f, sk[0], sk[1], h))
  }

  /** The block operation, before the bytes are unpacked and packed. */
  function CryptWords(f: RoundFunction, sk: seq<bv32>, h: Halves): Halves
    requires |sk| % 2 == 0
  {
    Fp(Rounds(f, sk, Ip(h)).Swap())
  }

  /** The triple operation: three runs of rounds between one Ip and one Fp, the middle run
      with the roles of the two halves exchanged. */
  function CryptWords3(f: RoundFunction, sk: seq<bv32>, h: Halves): Halves
    requires |sk| == 96
  {
    var h1 := Rounds(f, sk[..32], Ip(h));
    var h2 := Rounds(f, sk[32..64], h1.Swap()).Swap();
    Fp(Rounds(f, sk[64..], h2).Swap())
  }

  // ----- Key schedule -----

  /** The two bit swaps between the key words. */
  function Pc1Swaps(k: Halves): Halves {
    var x, y := k.x, k.y;
    var t := ((y >> 4) ^ x) & 0x0F0F0F0F; var x := x ^ t; var y := y ^ (t << 4);
    var t := (y ^ x) & 0x10101010; var x := x ^ t; var y := y ^ t;
    Halves(x, y)
  }

  function SpreadLeft(x: bv32): bv32 {
      (Lhs(x & 0xF) << 3) | (Lhs((x >> 8) & 0xF) << 2)
    | (Lhs((x >> 16) & 0xF) << 1) | Lhs((x >> 24) & 0xF)
    | (Lhs((x >> 5) & 0xF) << 7) | (Lhs((x >> 13) & 0xF) << 6)
    | (Lhs((x >> 21) & 0xF) << 5) | (Lhs((x >> 29) & 0xF) << 4)
  }

  function SpreadRight(y: bv32): bv32 {
      (Rhs((y >> 1) & 0xF) << 3) | (Rhs((y >> 9) & 0xF) << 2)
    | (Rhs((y >> 17) & 0xF) << 1) | Rhs((y >> 25) & 0xF)
    | (Rhs((y >> 4) & 0xF) << 7) | (Rhs((y >> 12) & 0xF) << 6)
    | (Rhs((y >> 20) & 0xF) << 5) | (Rhs((y >> 28) & 0xF) << 4)
  }

  /** Permuted choice 1. */
  function Pc1(k: Halves): Halves {
    Halves(SpreadLeft(Pc1Swaps(k).x) & 0x0FFFFFFF, SpreadRight(Pc1Swaps(k).y) & 0x0FFFFFFF)
  }

  function RotateOne(x: bv32): bv32 {
    ((x << 1) | (x >> 27)) & 0x0FFFFFFF
  }

  function RotateTwo(x: bv32): bv32 {
    ((x << 2) | (x >> 26)) & 0x0FFFFFFF
  }

  /** Rotation of the 28-bit halves in iteration i of the schedule loop. */
  function RotateHalves(i: nat, h: Halves): Halves {
    if i < 2 || i == 8 || i == 15
    then Halves(RotateOne(h.x), RotateOne(h.y))
    else Halves(RotateTwo(h.x), RotateTwo(h.y))
  }

  /** First subkey word of an iteration. */
  function Subkey0(x: bv32, y: bv32): bv32 {
      ((x << 4) & 0x24000000) | ((x << 28) & 0x10000000)
    | ((x << 14) & 0x08000000) | ((x << 18) & 0x02080000)
    | ((x << 6) & 0x01000000) | ((x << 9) & 0x00200000)
    | ((x >> 1) & 0x00100000) | ((x << 10) & 0x00040000)
    | ((x << 2) & 0x00020000) | ((x >> 10) & 0x00010000)
    | ((y >> 13) & 0x00002000) | ((y >> 4) & 0x00001000)
    | ((y << 6) & 0x00000800) | ((y >> 1) & 0x00000400)
    | ((y >> 14) & 0x00000200) | (y & 0x00000100)
    | ((y >> 5) & 0x00000020) | ((y >> 10) & 0x00000010)
    | ((y >> 3) & 0x00000008) | ((y >> 18) & 0x00000004)
    | ((y >> 26) & 0x00000002) | ((y >> 24) & 0x00000001)
  }

  /** Second subkey word of an iteration. */
  function Subkey1(x: bv32, y: bv32): bv32 {
      ((x << 15) & 0x20000000) | ((x << 17) & 0x10000000)
    | ((x << 10) & 0x08000000) | ((x << 22) & 0x04000000)
    | ((x >> 2) & 0x02000000) | ((x << 1) & 0x01000000)
    | ((x << 16) & 0x00200000) | ((x << 11) & 0x00100000)
    | ((x << 3) & 0x00080000) | ((x >> 6) & 0x00040000)
    | ((x << 15) & 0x00020000) | ((x >> 4) & 0x00010000)
    | ((y >> 2) & 0x00002000) | ((y << 8) & 0x00001000)
    | ((y >> 14) & 0x00000808) | ((y >> 9) & 0x00000400)
    | (y & 0x00000200) | ((y << 7) & 0x00000100)
    | ((y >> 7) & 0x00000020) | ((y >> 3) & 0x00000011)
    | ((y << 2) & 0x00000004) | ((y >> 21) & 0x00000002)
  }

  /** The key halves after n iterations of the schedule loop. */
  function KeyHalves(key: Halves, n: nat): Halves {
    if n == 0 then Pc1(key)
    else RotateHalves(n - 1, KeyHalves(key, n - 1))
  }

  /** The subkey words that the first n iterations store. */
  function ScheduleTo(key: Halves, n: nat): (sk: seq<bv32>)
    ensures |sk| == 2 * n
  {
    if n == 0 then []
    else var h := KeyHalves(key, n); ScheduleTo(key, n - 1) + [Subkey0(h.x, h.y), Subkey1(h.x, h.y)]
  }

  function Schedule(key: Halves): (sk: seq<bv32>)
    ensures |sk| == 32
  {
    ScheduleTo(key, 16)
  }

  /** The schedule with its rounds in opposite order, each pair of words kept together. */
  function ReversePairs<T>(sk: seq<T>): (r: seq<T>)
    requires |sk| % 2 == 0
    ensures |r| == |sk|
  {
    if sk == [] then [] else ReversePairs(sk[2..]) + sk[..2]
  }

  /** The encryption and decryption schedules of the triple cipher. */
  function Schedule3(k1: Halves, k2: Halves, k3: Halves): (sk: seq<bv32>)
    ensures |sk| == 96
  {
    Schedule(k1) + ReversePairs(Schedule(k2)) + Schedule(k3)
  }

  // ----- Blocks and bytes -----

  function Split(b: bv64): Halves {
    Halves((b >> 32) as bv32, (b & 0xFFFF_FFFF) as bv32)
  }

  function Join(h: Halves): bv64 {
    ((h.x as bv64) << 32) | (h.y as bv64)
  }

  lemma SplitJoin(b: bv64, h: Halves)
    ensures Join(Split(b)) == b
    ensures Split(Join(h)) == h
  {}

  function Ecb(sk: seq<bv32>, b: bv64): bv64
    requires |sk| == 32
  {
    Join(CryptWords(Lookups, sk, Split(b)))
  }

  function Ecb3(sk: seq<bv32>, b: bv64): bv64
    requires |sk| == 96
  {
    Join(CryptWords3(Lookups, sk, Split(b)))
  }

  function PackWord(a: bv8, b: bv8, c: bv8, d: bv8): bv32 {
    ((a as bv32) << 24) | ((b as bv32) << 16) | ((c as bv32) << 8) | (d as bv32)
  }

  function GetUint32(b: seq<bv8>, i: nat): bv32
    requires i + 4 <= |b|
  {
    PackWord(b[i], b[i + 1], b[i + 2], b[i + 3])
  }

  function PutUint32(n: bv32): (b: seq<bv8>)
    ensures |b| == 4 && GetUint32(b, 0) == n
  {
    [(n >> 24) as bv8, ((n >> 16) & 0xFF) as bv8, ((n >> 8) & 0xFF) as bv8, (n & 0xFF) as bv8]
  }

  /** The block in eight bytes of a buffer, most significant byte first. */
  function GetBlock(b: seq<bv8>, i: nat): bv64
    requires i + 8 <= |b|
  {
    Join(Halves(GetUint32(b, i), GetUint32(b, i + 4)))
  }

  function PutBlock(v: bv64): (b: seq<bv8>)
    ensures |b| == 8
  {
    PutUint32(Split(v).x) + PutUint32(Split(v).y)
  }

  lemma GetPutBlock(v: bv64)
    ensures GetBlock(PutBlock(v), 0) == v
  {
    var p, q := PutUint32(Split(v).x), PutUint32(Split(v).y);
    assert (p + q)[0] == p[0] && (p + q)[1] == p[1] && (p + q)[2] == p[2] && (p + q)[3] == p[3];
    assert (p + q)[4] == q[0] && (p + q)[5] == q[1] && (p + q)[6] == q[2] && (p + q)[7] == q[3];
    assert GetUint32(p + q, 0) == GetUint32(p, 0);
    assert GetUint32(p + q, 4) == GetUint32(q, 0);
    SplitJoin(v, Split(v));
  }

  lemma UnpackWord(a: bv8, b: bv8, c: bv8, d: bv8)
    ensures PutUint32(PackWord(a, b, c, d)) == [a, b, c, d]
  {
    UnpackByte0(a, b, c, d);
    UnpackByte1(a, b, c, d);
    UnpackByte2(a, b, c, d);
    UnpackByte3(a, b, c, d);
  }

  lemma UnpackByte0(a: bv8, b: bv8, c: bv8, d: bv8)
    ensures (PackWord(a, b, c, d) >> 24) as bv8 == a
  {}

  lemma UnpackByte1(a: bv8, b: bv8, c: bv8, d: bv8)
    ensures ((PackWord(a, b, c, d) >> 16) & 0xFF) as bv8 == b
  {}

  lemma UnpackByte2(a: bv8, b: bv8, c: bv8, d: bv8)
    ensures ((PackWord(a, b, c, d) >> 8) & 0xFF) as bv8 == c
  {}

  lemma UnpackByte3(a: bv8, b: bv8, c: bv8, d: bv8)
    ensures (PackWord(a, b, c, d) & 0xFF) as bv8 == d
  {}

  lemma PutGetUint32(b: seq<bv8>, i: nat)
    requires i + 4 <= |b|
    ensures PutUint32(GetUint32(b, i)) == b[i..i + 4]
  {
    UnpackWord(b[i], b[i + 1], b[i + 2], b[i + 3]);
    assert b[i..i + 4] == [b[i], b[i + 1], b[i + 2], b[i + 3]];
  }

  lemma PutGetBlock(b: seq<bv8>, i: nat)
    requires i + 8 <= |b|
    ensures PutBlock(GetBlock(b, i)) == b[i..i + 8]
  {
    var h := Halves(GetUint32(b, i), GetUint32(b, i + 4));
    SplitJoin(0, h);
    PutGetUint32(b, i);
    PutGetUint32(b, i + 4);
  }
}
