/** The Data Encryption Standard as FIPS 46-3 prints it: bits are numbered from 1 at the
    left, and every permutation is a table whose k-th entry names the input bit that
    becomes output bit k. Each row of a printed table is one Row call below. */
module Fips46 {
  import opened WordOps

  /** Bit n of a w-bit value that is stored right-aligned. */
  function Bit(x: bv64, w: bv64, n: bv64): bv64
    requires 1 <= n <= w <= 64
  {
    (x >> (w - n)) & 1
  }

  function Row4(x: bv64, w: bv64, n1: bv64, n2: bv64, n3: bv64, n4: bv64): bv64
    requires w <= 64 && 1 <= n1 <= w && 1 <= n2 <= w && 1 <= n3 <= w && 1 <= n4 <= w
  {
    (Bit(x, w, n1) << 3) | (Bit(x, w, n2) << 2) | (Bit(x, w, n3) << 1) | (Bit(x, w, n4) << 0)
  }

  function Row6(x: bv64, w: bv64, n1: bv64, n2: bv64, n3: bv64, n4: bv64, n5: bv64, n6: bv64): bv64
    requires w <= 64 && 1 <= n1 <= w && 1 <= n2 <= w && 1 <= n3 <= w && 1 <= n4 <= w && 1 <= n5 <= w && 1 <= n6 <= w
  {
    (Bit(x, w, n1) << 5) | (Bit(x, w, n2) << 4) | (Bit(x, w, n3) << 3) | (Bit(x, w, n4) << 2)
        | (Bit(x, w, n5) << 1) | (Bit(x, w, n6) << 0)
  }

  function Row7(x: bv64, w: bv64, n1: bv64, n2: bv64, n3: bv64, n4: bv64, n5: bv64, n6: bv64, n7: bv64): bv64
    requires w <= 64 && 1 <= n1 <= w && 1 <= n2 <= w && 1 <= n3 <= w && 1 <= n4 <= w && 1 <= n5 <= w
        && 1 <= n6 <= w && 1 <= n7 <= w
  {
    (Bit(x, w, n1) << 6) | (Bit(x, w, n2) << 5) | (Bit(x, w, n3) << 4) | (Bit(x, w, n4) << 3)
        | (Bit(x, w, n5) << 2) | (Bit(x, w, n6) << 1) | (Bit(x, w, n7) << 0)
  }

  function Row8(x: bv64, w: bv64, n1: bv64, n2: bv64, n3: bv64, n4: bv64, n5: bv64, n6: bv64, n7: bv64, n8: bv64): bv64
    requires w <= 64 && 1 <= n1 <= w && 1 <= n2 <= w && 1 <= n3 <= w && 1 <= n4 <= w && 1 <= n5 <= w
        && 1 <= n6 <= w && 1 <= n7 <= w && 1 <= n8 <= w
  {
    (Bit(x, w, n1) << 7) | (Bit(x, w, n2) << 6) | (Bit(x, w, n3) << 5) | (Bit(x, w, n4) << 4)
        | (Bit(x, w, n5) << 3) | (Bit(x, w, n6) << 2) | (Bit(x, w, n7) << 1) | (Bit(x, w, n8) << 0)
  }

  /** The 64 bits of eight bytes. */
  function FromBytes(b: seq<bv8>): bv64
    requires |b| == 8
  {
    ((b[0] as bv64) << 56) | ((b[1] as bv64) << 48) | ((b[2] as bv64) << 40) | ((b[3] as bv64) << 32)
        | ((b[4] as bv64) << 24) | ((b[5] as bv64) << 16) | ((b[6] as bv64) << 8) | (b[7] as bv64)
  }

  /** Numbered from the left, bits 8 i + 1 to 8 i + 8 are byte i, most significant bit first. */
  lemma BytesAreNumberedFromTheLeft(b: seq<bv8>)
    requires |b| == 8
    ensures Row8(FromBytes(b), 64, 1, 2, 3, 4, 5, 6, 7, 8) == b[0] as bv64
    ensures Row8(FromBytes(b), 64, 9, 10, 11, 12, 13, 14, 15, 16) == b[1] as bv64
    ensures Row8(FromBytes(b), 64, 17, 18, 19, 20, 21, 22, 23, 24) == b[2] as bv64
    ensures Row8(FromBytes(b), 64, 25, 26, 27, 28, 29, 30, 31, 32) == b[3] as bv64
    ensures Row8(FromBytes(b), 64, 33, 34, 35, 36, 37, 38, 39, 40) == b[4] as bv64
    ensures Row8(FromBytes(b), 64, 41, 42, 43, 44, 45, 46, 47, 48) == b[5] as bv64
    ensures Row8(FromBytes(b), 64, 49, 50, 51, 52, 53, 54, 55, 56) == b[6] as bv64
    ensures Row8(FromBytes(b), 64, 57, 58, 59, 60, 61, 62, 63, 64) == b[7] as bv64
  {}

  /** Initial permutation. */
  function InitialPermutation(x: bv64): bv64 {
      (Row8(x, 64, 58, 50, 42, 34, 26, 18, 10, 2) << 56)
    | (Row8(x, 64, 60, 52, 44, 36, 28, 20, 12, 4) << 48)
    | (Row8(x, 64, 62, 54, 46, 38, 30, 22, 14, 6) << 40)
    | (Row8(x, 64, 64, 56, 48, 40, 32, 24, 16, 8) << 32)
    | (Row8(x, 64, 57, 49, 41, 33, 25, 17, 9, 1) << 24)
    | (Row8(x, 64, 59, 51, 43, 35, 27, 19, 11, 3) << 16)
    | (Row8(x, 64, 61, 53, 45, 37, 29, 21, 13, 5) << 8)
    | (Row8(x, 64, 63, 55, 47, 39, 31, 23, 15, 7) << 0)
  }

  /** Inverse initial permutation. */
  function InversePermutation(x: bv64): bv64 {
      (Row8(x, 64, 40, 8, 48, 16, 56, 24, 64, 32) << 56)
    | (Row8(x, 64, 39, 7, 47, 15, 55, 23, 63, 31) << 48)
    | (Row8(x, 64, 38, 6, 46, 14, 54, 22, 62, 30) << 40)
    | (Row8(x, 64, 37, 5, 45, 13, 53, 21, 61, 29) << 32)
    | (Row8(x, 64, 36, 4, 44, 12, 52, 20, 60, 28) << 24)
    | (Row8(x, 64, 35, 3, 43, 11, 51, 19, 59, 27) << 16)
    | (Row8(x, 64, 34, 2, 42, 10, 50, 18, 58, 26) << 8)
    | (Row8(x, 64, 33, 1, 41, 9, 49, 17, 57, 25) << 0)
  }

  /** Bit-selection table E. */
  function E(r: bv32): bv48 {
    var x := r as bv64;
    (  (Row6(x, 32, 32, 1, 2, 3, 4, 5) << 42)
     | (Row6(x, 32, 4, 5, 6, 7, 8, 9) << 36)
     | (Row6(x, 32, 8, 9, 10, 11, 12, 13) << 30)
     | (Row6(x, 32, 12, 13, 14, 15, 16, 17) << 24)
     | (Row6(x, 32, 16, 17, 18, 19, 20, 21) << 18)
     | (Row6(x, 32, 20, 21, 22, 23, 24, 25) << 12)
     | (Row6(x, 32, 24, 25, 26, 27, 28, 29) << 6)
     | (Row6(x, 32, 28, 29, 30, 31, 32, 1) << 0)) as bv48
  }

  /** Permutation P. */
  function P(s: bv32): bv32 {
    var x := s as bv64;
    (  (Row4(x, 32, 16, 7, 20, 21) << 28)
     | (Row4(x, 32, 29, 12, 28, 17) << 24)
     | (Row4(x, 32, 1, 15, 23, 26) << 20)
     | (Row4(x, 32, 5, 18, 31, 10) << 16)
     | (Row4(x, 32, 2, 8, 24, 14) << 12)
     | (Row4(x, 32, 32, 27, 3, 9) << 8)
     | (Row4(x, 32, 19, 13, 30, 6) << 4)
     | (Row4(x, 32, 22, 11, 4, 25) << 0)) as bv32
  }

  /** Permuted choice 1; the left 28 bits are C0 and the right 28 are D0. */
  function PermutedChoice1(x: bv64): bv56 {
    (  (Row7(x, 64, 57, 49, 41, 33, 25, 17, 9) << 49)
     | (Row7(x, 64, 1, 58, 50, 42, 34, 26, 18) << 42)
     | (Row7(x, 64, 10, 2, 59, 51, 43, 35, 27) << 35)
     | (Row7(x, 64, 19, 11, 3, 60, 52, 44, 36) << 28)
     | (Row7(x, 64, 63, 55, 47, 39, 31, 23, 15) << 21)
     | (Row7(x, 64, 7, 62, 54, 46, 38, 30, 22) << 14)
     | (Row7(x, 64, 14, 6, 61, 53, 45, 37, 29) << 7)
     | (Row7(x, 64, 21, 13, 5, 28, 20, 12, 4) << 0)) as bv56
  }

  /** Permuted choice 2 on the concatenation CnDn. */
  function PermutedChoice2(c: bv28, d: bv28): bv48 {
    var x := ((c as bv64) << 28) | (d as bv64);
    (  (Row6(x, 56, 14, 17, 11, 24, 1, 5) << 42)
     | (Row6(x, 56, 3, 28, 15, 6, 21, 10) << 36)
     | (Row6(x, 56, 23, 19, 12, 4, 26, 8) << 30)
     | (Row6(x, 56, 16, 7, 27, 20, 13, 2) << 24)
     | (Row6(x, 56, 41, 52, 31, 37, 47, 55) << 18)
     | (Row6(x, 56, 30, 40, 51, 45, 33, 48) << 12)
     | (Row6(x, 56, 44, 49, 39, 56, 34, 53) << 6)
     | (Row6(x, 56, 46, 42, 50, 36, 29, 32) << 0)) as bv48
  }

  /** Selection functions S1 to S8: the first and last of the six bits name the row, the
      middle four the column. */
  function S1(b: bv32): (r: bv32)
    requires b <= 0x3F
    ensures r <= 15
  {
    Pick4(((b >> 4) & 2) | (b & 1),
          Pick16(b >> 1, 14, 4, 13, 1, 2, 15, 11, 8, 3, 10, 6, 12, 5, 9, 0, 7),
          Pick16(b >> 1, 0, 15, 7, 4, 14, 2, 13, 1, 10, 6, 12, 11, 9, 5, 3, 8),
          Pick16(b >> 1, 4, 1, 14, 8, 13, 6, 2, 11, 15, 12, 9, 7, 3, 10, 5, 0),
          Pick16(b >> 1, 15, 12, 8, 2, 4, 9, 1, 7, 5, 11, 3, 14, 10, 0, 6, 13))
  }

  function S2(b: bv32): (r: bv32)
    requires b <= 0x3F
    ensures r <= 15
  {
    Pick4(((b >> 4) & 2) | (b & 1),
          Pick16(b >> 1, 15, 1, 8, 14, 6, 11, 3, 4, 9, 7, 2, 13, 12, 0, 5, 10),
          Pick16(b >> 1, 3, 13, 4, 7, 15, 2, 8, 14, 12, 0, 1, 10, 6, 9, 11, 5),
          Pick16(b >> 1, 0, 14, 7, 11, 10, 4, 13, 1, 5, 8, 12, 6, 9, 3, 2, 15),
          Pick16(b >> 1, 13, 8, 10, 1, 3, 15, 4, 2, 11, 6, 7, 12, 0, 5, 14, 9))
  }

  function S3(b: bv32): (r: bv32)
    requires b <= 0x3F
    ensures r <= 15
  {
    Pick4(((b >> 4) & 2) | (b & 1),
          Pick16(b >> 1, 10, 0, 9, 14, 6, 3, 15, 5, 1, 13, 12, 7, 11, 4, 2, 8),
          Pick16(b >> 1, 13, 7, 0, 9, 3, 4, 6, 10, 2, 8, 5, 14, 12, 11, 15, 1),
          Pick16(b >> 1, 13, 6, 4, 9, 8, 15, 3, 0, 11, 1, 2, 12, 5, 10, 14, 7),
          Pick16(b >> 1, 1, 10, 13, 0, 6, 9, 8, 7, 4, 15, 14, 3, 11, 5, 2, 12))
  }

  function S4(b: bv32): (r: bv32)
    requires b <= 0x3F
    ensures r <= 15
  {
    Pick4(((b >> 4) & 2) | (b & 1),
          Pick16(b >> 1, 7, 13, 14, 3, 0, 6, 9, 10, 1, 2, 8, 5, 11, 12, 4, 15),
          Pick16(b >> 1, 13, 8, 11, 5, 6, 15, 0, 3, 4, 7, 2, 12, 1, 10, 14, 9),
          Pick16(b >> 1, 10, 6, 9, 0, 12, 11, 7, 13, 15, 1, 3, 14, 5, 2, 8, 4),
          Pick16(b >> 1, 3, 15, 0, 6, 10, 1, 13, 8, 9, 4, 5, 11, 12, 7, 2, 14))
  }

  function S5(b: bv32): (r: bv32)
    requires b <= 0x3F
    ensures r <= 15
  {
    Pick4(((b >> 4) & 2) | (b & 1),
          Pick16(b >> 1, 2, 12, 4, 1, 7, 10, 11, 6, 8, 5, 3, 15, 13, 0, 14, 9),
          Pick16(b >> 1, 14, 11, 2, 12, 4, 7, 13, 1, 5, 0, 15, 10, 3, 9, 8, 6),
          Pick16(b >> 1, 4, 2, 1, 11, 10, 13, 7, 8, 15, 9, 12, 5, 6, 3, 0, 14),
          Pick16(b >> 1, 11, 8, 12, 7, 1, 14, 2, 13, 6, 15, 0, 9, 10, 4, 5, 3))
  }

  function S6(b: bv32): (r: bv32)
    requires b <= 0x3F
    ensures r <= 15
  {
    Pick4(((b >> 4) & 2) | (b & 1),
          Pick16(b >> 1, 12, 1, 10, 15, 9, 2, 6, 8, 0, 13, 3, 4, 14, 7, 5, 11),
          Pick16(b >> 1, 10, 15, 4, 2, 7, 12, 9, 5, 6, 1, 13, 14, 0, 11, 3, 8),
          Pick16(b >> 1, 9, 14, 15, 5, 2, 8, 12, 3, 7, 0, 4, 10, 1, 13, 11, 6),
          Pick16(b >> 1, 4, 3, 2, 12, 9, 5, 15, 10, 11, 14, 1, 7, 6, 0, 8, 13))
  }

  function S7(b: bv32): (r: bv32)
    requires b <= 0x3F
    ensures r <= 15
  {
    Pick4(((b >> 4) & 2) | (b & 1),
          Pick16(b >> 1, 4, 11, 2, 14, 15, 0, 8, 13, 3, 12, 9, 7, 5, 10, 6, 1),
          Pick16(b >> 1, 13, 0, 11, 7, 4, 9, 1, 10, 14, 3, 5, 12, 2, 15, 8, 6),
          Pick16(b >> 1, 1, 4, 11, 13, 12, 3, 7, 14, 10, 15, 6, 8, 0, 5, 9, 2),
          Pick16(b >> 1, 6, 11, 13, 8, 1, 4, 10, 7, 9, 5, 0, 15, 14, 2, 3, 12))
  }

  function S8(b: bv32): (r: bv32)
    requires b <= 0x3F
    ensures r <= 15
  {
    Pick4(((b >> 4) & 2) | (b & 1),
          Pick16(b >> 1, 13, 2, 8, 4, 6, 15, 11, 1, 10, 9, 3, 14, 5, 0, 12, 7),
          Pick16(b >> 1, 1, 15, 13, 8, 10, 3, 7, 4, 12, 5, 6, 11, 0, 14, 9, 2),
          Pick16(b >> 1, 7, 11, 4, 1, 9, 12, 14, 2, 0, 6, 10, 13, 15, 3, 5, 8),
          Pick16(b >> 1, 2, 1, 14, 7, 4, 10, 8, 13, 15, 12, 9, 0, 3, 5, 6, 11))
  }

  /** The n-th group of six bits of a 48-bit value, counted from 1 at the left. */
  function Group(x: bv48, n: bv48): bv32
    requires 1 <= n <= 8
  {
    ((x >> (48 - 6 * n)) & 0x3F) as bv32
  }

  /** The cipher function f(R, K). */
  function F(r: bv32, k: bv48): bv32 {
    var x := E(r) ^ k;
    P((S1(Group(x, 1)) << 28) | (S2(Group(x, 2)) << 24) | (S3(Group(x, 3)) << 20) | (S4(Group(x, 4)) << 16) |
      (S5(Group(x, 5)) << 12) | (S6(Group(x, 6)) << 8) | (S7(Group(x, 7)) << 4) | S8(Group(x, 8)))
  }

  /** Number of left shifts of iteration n, for n from 1 to 16. */
  function Shifts(n: nat): nat {
    if n == 1 || n == 2 || n == 9 || n == 16 then 1 else 2
  }

  function RotateLeft28(x: bv28, n: nat): bv28
    requires n == 1 || n == 2
  {
    if n == 1 then (x << 1) | (x >> 27) else (x << 2) | (x >> 26)
  }

  function First28(p: bv56): bv28 { (p >> 28) as bv28 }

  function Last28(p: bv56): bv28 { (p & 0xFFF_FFFF) as bv28 }

  function First32(b: bv64): bv32 { (b >> 32) as bv32 }

  function Last32(b: bv64): bv32 { (b & 0xFFFF_FFFF) as bv32 }

  function Concat(first: bv32, last: bv32): bv64 {
    ((first as bv64) << 32) | (last as bv64)
  }

  /** Cn and Dn of the key schedule. */
  function C(key: bv64, n: nat): bv28 {
    if n == 0 then First28(PermutedChoice1(key)) else RotateLeft28(C(key, n - 1), Shifts(n))
  }

  function D(key: bv64, n: nat): bv28 {
    if n == 0 then Last28(PermutedChoice1(key)) else RotateLeft28(D(key, n - 1), Shifts(n))
  }

  /** KS: the n-th 48-bit subkey. */
  function KS(key: bv64, n: nat): bv48 {
    PermutedChoice2(C(key, n), D(key, n))
  }

  /** Ln and Rn. */
  function L(key: bv64, block: bv64, n: nat): bv32
    decreases n, 0
  {
    if n == 0 then First32(InitialPermutation(block)) else R(key, block, n - 1)
  }

  function R(key: bv64, block: bv64, n: nat): bv32
    decreases n, 1
  {
    if n == 0 then Last32(InitialPermutation(block))
    else Xor(L(key, block, n - 1), F(R(key, block, n - 1), KS(key, n)))
  }

  /** Enciphering: the preoutput block is R16 L16. */
  function Encipher(key: bv64, block: bv64): bv64 {
    InversePermutation(Concat(R(key, block, 16), L(key, block, 16)))
  }
}
