/** The block operation computes the cipher of FIPS 46-3 for every key and every block. Both
    halves are kept rotated left by one bit, and a 48-bit subkey is kept as two words that
    hold its even and its odd groups of six bits. */
module DesRefinement {
  import opened DesTables
  import opened DesCore
  import opened WordOps
  import DesTheory
  import Fips46

  function RotateLeft1(x: bv32): bv32 {
    (x << 1) | (x >> 31)
  }

  /** Groups 2, 4, 6 and 8 of a subkey, one a byte. */
  function EvenGroups(k: bv48): bv32 {
    (Fips46.Group(k, 2) << 24) | (Fips46.Group(k, 4) << 16) | (Fips46.Group(k, 6) << 8) | Fips46.Group(k, 8)
  }

  /** Groups 1, 3, 5 and 7. */
  function OddGroups(k: bv48): bv32 {
    (Fips46.Group(k, 1) << 24) | (Fips46.Group(k, 3) << 16) | (Fips46.Group(k, 5) << 8) | Fips46.Group(k, 7)
  }

  // ----- Initial and final permutation -----

  lemma InitialPermutationRefines(b: bv64)
    ensures Ip(Split(b)) == Halves(RotateLeft1(Fips46.First32(Fips46.InitialPermutation(b))),
                                   RotateLeft1(Fips46.Last32(Fips46.InitialPermutation(b))))
  {}

  lemma FinalPermutationRefines(r: bv32, l: bv32)
    ensures Join(Fp(Halves(RotateLeft1(r), RotateLeft1(l)))) == Fips46.InversePermutation(Fips46.Concat(r, l))
  {}

  // ----- Key schedule -----

  function Wide(c: bv28): bv32 { c as bv32 }

  /** The two halves of the result of permuted choice 1, in 32-bit words. */
  function LeftHalf(p: bv56): bv32 { (p >> 28) as bv32 }

  function RightHalf(p: bv56): bv32 { (p & 0xFFF_FFFF) as bv32 }

  function LeftBits(i: bv32): bv32 {
    (i & 1) | ((i & 2) << 7) | ((i & 4) << 14) | ((i & 8) << 21)
  }

  function RightBits(i: bv32): bv32 {
    ((i & 8) >> 3) | ((i & 4) << 6) | ((i & 2) << 15) | ((i & 1) << 24)
  }

  lemma LhsBits(i: bv32)
    requires i <= 0xF
    ensures Lhs(i) == LeftBits(i)
  {}

  lemma RhsBits(i: bv32)
    requires i <= 0xF
    ensures Rhs(i) == RightBits(i)
  {}

  function GatherLeft(x: bv32): bv32 {
    ( (LeftBits(x & 0xF) << 3) | (LeftBits((x >> 8) & 0xF) << 2)
    | (LeftBits((x >> 16) & 0xF) << 1) | LeftBits((x >> 24) & 0xF)
    | (LeftBits((x >> 5) & 0xF) << 7) | (LeftBits((x >> 13) & 0xF) << 6)
    | (LeftBits((x >> 21) & 0xF) << 5) | (LeftBits((x >> 29) & 0xF) << 4)) & 0x0FFFFFFF
  }

  function GatherRight(y: bv32): bv32 {
    ( (RightBits((y >> 1) & 0xF) << 3) | (RightBits((y >> 9) & 0xF) << 2)
    | (RightBits((y >> 17) & 0xF) << 1) | RightBits((y >> 25) & 0xF)
    | (RightBits((y >> 4) & 0xF) << 7) | (RightBits((y >> 12) & 0xF) << 6)
    | (RightBits((y >> 20) & 0xF) << 5) | (RightBits((y >> 28) & 0xF) << 4)) & 0x0FFFFFFF
  }

  lemma SpreadLeftBits(x: bv32)
    ensures SpreadLeft(x) & 0x0FFFFFFF == GatherLeft(x)
  {
    LhsBits(x & 0xF); LhsBits((x >> 8) & 0xF); LhsBits((x >> 16) & 0xF); LhsBits((x >> 24) & 0xF);
    LhsBits((x >> 5) & 0xF); LhsBits((x >> 13) & 0xF); LhsBits((x >> 21) & 0xF); LhsBits((x >> 29) & 0xF);
  }

  lemma SpreadRightBits(y: bv32)
    ensures SpreadRight(y) & 0x0FFFFFFF == GatherRight(y)
  {
    RhsBits((y >> 1) & 0xF); RhsBits((y >> 9) & 0xF); RhsBits((y >> 17) & 0xF); RhsBits((y >> 25) & 0xF);
    RhsBits((y >> 4) & 0xF); RhsBits((y >> 12) & 0xF); RhsBits((y >> 20) & 0xF); RhsBits((y >> 28) & 0xF);
  }

  lemma LeftHalfBits(key: bv64, x: bv32)
    requires x == Pc1Swaps(Split(key)).x
    ensures ( (LeftBits(x & 0xF) << 3) | (LeftBits((x >> 8) & 0xF) << 2)
    | (LeftBits((x >> 16) & 0xF) << 1) | LeftBits((x >> 24) & 0xF)
    | (LeftBits((x >> 5) & 0xF) << 7) | (LeftBits((x >> 13) & 0xF) << 6)
    | (LeftBits((x >> 21) & 0xF) << 5) | (LeftBits((x >> 29) & 0xF) << 4)) & 0x0FFFFFFF
         == LeftHalf(Fips46.PermutedChoice1(key))
  {}

  lemma LeftHalfRefines(key: bv64, x: bv32)
    requires x == Pc1Swaps(Split(key)).x
    ensures GatherLeft(x) == LeftHalf(Fips46.PermutedChoice1(key))
  {
    hide Pc1Swaps, Split, LeftHalf, RightHalf, Fips46.PermutedChoice1;
    LeftHalfBits(key, x);
  }

  lemma RightHalfBits(key: bv64, y: bv32)
    requires y == Pc1Swaps(Split(key)).y
    ensures ( (RightBits((y >> 1) & 0xF) << 3) | (RightBits((y >> 9) & 0xF) << 2)
    | (RightBits((y >> 17) & 0xF) << 1) | RightBits((y >> 25) & 0xF)
    | (RightBits((y >> 4) & 0xF) << 7) | (RightBits((y >> 12) & 0xF) << 6)
    | (RightBits((y >> 20) & 0xF) << 5) | (RightBits((y >> 28) & 0xF) << 4)) & 0x0FFFFFFF
         == RightHalf(Fips46.PermutedChoice1(key))
  {}

  lemma RightHalfRefines(key: bv64, y: bv32)
    requires y == Pc1Swaps(Split(key)).y
    ensures GatherRight(y) == RightHalf(Fips46.PermutedChoice1(key))
  {
    hide Pc1Swaps, Split, LeftHalf, RightHalf, Fips46.PermutedChoice1;
    RightHalfBits(key, y);
  }

  lemma FirstKeyHalfBits(key: bv64)
    ensures Fips46.C(key, 0) as bv32 == (Fips46.PermutedChoice1(key) >> 28) as bv32
  {
    hide Fips46.PermutedChoice1;
  }

  lemma FirstKeyHalf(key: bv64)
    ensures Wide(Fips46.C(key, 0)) == LeftHalf(Fips46.PermutedChoice1(key))
  {
    hide Fips46.PermutedChoice1, Fips46.C;
    FirstKeyHalfBits(key);
  }

  lemma SecondKeyHalfBits(key: bv64)
    ensures Fips46.D(key, 0) as bv32 == (Fips46.PermutedChoice1(key) & 0xFFF_FFFF) as bv32
  {
    hide Fips46.PermutedChoice1;
  }

  lemma SecondKeyHalf(key: bv64)
    ensures Wide(Fips46.D(key, 0)) == RightHalf(Fips46.PermutedChoice1(key))
  {
    hide Fips46.PermutedChoice1, Fips46.D;
    SecondKeyHalfBits(key);
  }

  /** Cn and Dn in the form in which the schedule loop keeps them. */
  function CnDn(key: bv64, n: nat): Halves {
    Halves(Wide(Fips46.C(key, n)), Wide(Fips46.D(key, n)))
  }

  lemma LeftKeyHalf(key: bv64)
    ensures SpreadLeft(Pc1Swaps(Split(key)).x) & 0x0FFFFFFF == Wide(Fips46.C(key, 0))
  {
    hide Split, Pc1Swaps, SpreadLeft, GatherLeft, LeftHalf, Wide, Fips46.C, Fips46.PermutedChoice1;
    SpreadLeftBits(Pc1Swaps(Split(key)).x);
    LeftHalfRefines(key, Pc1Swaps(Split(key)).x);
    FirstKeyHalf(key);
  }

  lemma RightKeyHalf(key: bv64)
    ensures SpreadRight(Pc1Swaps(Split(key)).y) & 0x0FFFFFFF == Wide(Fips46.D(key, 0))
  {
    hide Split, Pc1Swaps, SpreadRight, GatherRight, RightHalf, Wide, Fips46.D, Fips46.PermutedChoice1;
    SpreadRightBits(Pc1Swaps(Split(key)).y);
    RightHalfRefines(key, Pc1Swaps(Split(key)).y);
    SecondKeyHalf(key);
  }

  lemma PermutedChoice1Refines(key: bv64)
    ensures Pc1(Split(key)) == CnDn(key, 0)
  {
    hide Split, Pc1Swaps, SpreadLeft, SpreadRight, Wide, Fips46.C, Fips46.D;
    LeftKeyHalf(key);
    RightKeyHalf(key);
  }

  lemma RotateOneBits(x: bv28)
    ensures RotateOne(x as bv32) == Fips46.RotateLeft28(x, 1) as bv32
  {}

  lemma RotateOneRefines(x: bv28)
    ensures RotateOne(Wide(x)) == Wide(Fips46.RotateLeft28(x, 1))
  {
    hide RotateOne, Fips46.RotateLeft28;
    RotateOneBits(x);
  }

  lemma RotateTwoBits(x: bv28)
    ensures RotateTwo(x as bv32) == Fips46.RotateLeft28(x, 2) as bv32
  {}

  lemma RotateTwoRefines(x: bv28)
    ensures RotateTwo(Wide(x)) == Wide(Fips46.RotateLeft28(x, 2))
  {
    hide RotateTwo, Fips46.RotateLeft28;
    RotateTwoBits(x);
  }

  lemma RotateHalvesRefines(key: bv64, n: nat)
    requires 1 <= n <= 16
    ensures RotateHalves(n - 1, CnDn(key, n - 1)) == CnDn(key, n)
  {
    hide RotateHalves, CnDn;
    if Fips46.Shifts(n) == 1 {
      OneShiftRefines(key, n);
    } else {
      TwoShiftsRefine(key, n);
    }
  }

  lemma OneShiftRefines(key: bv64, n: nat)
    requires 1 <= n <= 16 && Fips46.Shifts(n) == 1
    ensures RotateHalves(n - 1, CnDn(key, n - 1)) == CnDn(key, n)
  {
    hide RotateOne, Wide, Fips46.RotateLeft28, Fips46.PermutedChoice1;
    RotateOneRefines(Fips46.C(key, n - 1));
    RotateOneRefines(Fips46.D(key, n - 1));
  }

  lemma TwoShiftsRefine(key: bv64, n: nat)
    requires 1 <= n <= 16 && Fips46.Shifts(n) == 2
    ensures RotateHalves(n - 1, CnDn(key, n - 1)) == CnDn(key, n)
  {
    hide RotateTwo, Wide, Fips46.RotateLeft28, Fips46.PermutedChoice1;
    RotateTwoRefines(Fips46.C(key, n - 1));
    RotateTwoRefines(Fips46.D(key, n - 1));
  }

  /** The loop's key halves are Cn and Dn. */
  lemma {:induction false} KeyHalvesRefine(key: bv64, n: nat)
    requires n <= 16
    ensures KeyHalves(Split(key), n) == CnDn(key, n)
  {
    hide Pc1, RotateHalves, Split, CnDn;
    if n == 0 {
      PermutedChoice1Refines(key);
    } else {
      KeyHalvesRefine(key, n - 1);
      RotateHalvesRefines(key, n);
    }
  }

  lemma Subkey0Refines(c: bv28, d: bv28)
    ensures Subkey0(Wide(c), Wide(d)) == EvenGroups(Fips46.PermutedChoice2(c, d))
  {}

  lemma Subkey1Refines(c: bv28, d: bv28)
    ensures Subkey1(Wide(c), Wide(d)) == OddGroups(Fips46.PermutedChoice2(c, d))
  {}

  lemma SubkeysRefine(key: bv64, n: nat)
    requires 1 <= n <= 16
    ensures Subkey0(KeyHalves(Split(key), n).x, KeyHalves(Split(key), n).y) == EvenGroups(Fips46.KS(key, n))
    ensures Subkey1(KeyHalves(Split(key), n).x, KeyHalves(Split(key), n).y) == OddGroups(Fips46.KS(key, n))
  {
    hide Subkey0, Subkey1, EvenGroups, OddGroups, Fips46.PermutedChoice2, KeyHalves, Split, Wide, Fips46.C, Fips46.D;
    KeyHalvesRefine(key, n);
    Subkey0Refines(Fips46.C(key, n), Fips46.D(key, n));
    Subkey1Refines(Fips46.C(key, n), Fips46.D(key, n));
  }

  /** The two stored words of iteration i hold subkey KS(i + 1). */
  lemma {:induction false} ScheduleRefines(key: bv64, n: nat, i: nat)
    requires i < n <= 16
    ensures ScheduleTo(Split(key), n)[2 * i] == EvenGroups(Fips46.KS(key, i + 1))
    ensures ScheduleTo(Split(key), n)[2 * i + 1] == OddGroups(Fips46.KS(key, i + 1))
  {
    hide Subkey0, Subkey1, EvenGroups, OddGroups, Fips46.KS, KeyHalves, Split;
    if i == n - 1 {
      SubkeysRefine(key, n);
    } else {
      ScheduleRefines(key, n - 1, i);
    }
  }

  // ----- The cipher function -----

  /** Group n of E(R) + K. */
  function Summed(r: bv32, k: bv48, n: bv48): (g: bv32)
    requires 1 <= n <= 8
    ensures g <= 0x3F
  {
    Fips46.Group(Fips46.E(r) ^ k, n)
  }

  lemma EvenIndicesRefine(r: bv32, k: bv48)
    ensures IndicesOf(Xor(EvenGroups(k), RotateLeft1(r)))
         == Indices(Summed(r, k, 8), Summed(r, k, 6), Summed(r, k, 4), Summed(r, k, 2))
  {}

  lemma OddIndicesRefine(r: bv32, k: bv48)
    ensures IndicesOf(Xor(OddGroups(k), RotateRight4(RotateLeft1(r))))
         == Indices(Summed(r, k, 7), Summed(r, k, 5), Summed(r, k, 3), Summed(r, k, 1))
  {}

  lemma Fused1(i: bv32)
    requires i <= 0x3F
    ensures SB1(i) == RotateLeft1(Fips46.P(Fips46.S1(i) << 28))
  {}

  lemma Fused2(i: bv32)
    requires i <= 0x3F
    ensures SB2(i) == RotateLeft1(Fips46.P(Fips46.S2(i) << 24))
  {}

  lemma Fused3(i: bv32)
    requires i <= 0x3F
    ensures SB3(i) == RotateLeft1(Fips46.P(Fips46.S3(i) << 20))
  {}

  lemma Fused4(i: bv32)
    requires i <= 0x3F
    ensures SB4(i) == RotateLeft1(Fips46.P(Fips46.S4(i) << 16))
  {}

  lemma Fused5(i: bv32)
    requires i <= 0x3F
    ensures SB5(i) == RotateLeft1(Fips46.P(Fips46.S5(i) << 12))
  {}

  lemma Fused6(i: bv32)
    requires i <= 0x3F
    ensures SB6(i) == RotateLeft1(Fips46.P(Fips46.S6(i) << 8))
  {}

  lemma Fused7(i: bv32)
    requires i <= 0x3F
    ensures SB7(i) == RotateLeft1(Fips46.P(Fips46.S7(i) << 4))
  {}

  lemma Fused8(i: bv32)
    requires i <= 0x3F
    ensures SB8(i) == RotateLeft1(Fips46.P(Fips46.S8(i)))
  {}

  /** The word that P permutes: the eight selections side by side. */
  function Selections(a: bv32, b: bv32, c: bv32, d: bv32, e: bv32, f: bv32, g: bv32, h: bv32): bv32 {
    (a << 28) | (b << 24) | (c << 20) | (d << 16) | (e << 12) | (f << 8) | (g << 4) | h
  }

  function EvenPart(b: bv32, d: bv32, f: bv32, h: bv32): bv32 {
    RotateLeft1(Fips46.P(h)) ^ RotateLeft1(Fips46.P(f << 8))
    ^ RotateLeft1(Fips46.P(d << 16)) ^ RotateLeft1(Fips46.P(b << 24))
  }

  function OddPart(a: bv32, c: bv32, e: bv32, g: bv32): bv32 {
    RotateLeft1(Fips46.P(g << 4)) ^ RotateLeft1(Fips46.P(e << 12))
    ^ RotateLeft1(Fips46.P(c << 20)) ^ RotateLeft1(Fips46.P(a << 28))
  }

  /** P acts on each selection separately. */
  lemma PermutationIsLinear(a: bv32, b: bv32, c: bv32, d: bv32, e: bv32, f: bv32, g: bv32, h: bv32)
    requires a <= 15 && b <= 15 && c <= 15 && d <= 15 && e <= 15 && f <= 15 && g <= 15 && h <= 15
    ensures RotateLeft1(Fips46.P(Selections(a, b, c, d, e, f, g, h))) == Xor(EvenPart(b, d, f, h), OddPart(a, c, e, g))
  {}

  lemma EvenLookupsRefine(i2: bv32, i4: bv32, i6: bv32, i8: bv32)
    requires i2 <= 0x3F && i4 <= 0x3F && i6 <= 0x3F && i8 <= 0x3F
    ensures EvenLookups(Indices(i8, i6, i4, i2))
         == EvenPart(Fips46.S2(i2), Fips46.S4(i4), Fips46.S6(i6), Fips46.S8(i8))
  {
    hide SB2, SB4, SB6, SB8, RotateLeft1, Fips46.P, Fips46.S2, Fips46.S4, Fips46.S6, Fips46.S8;
    Fused2(i2);
    Fused4(i4);
    Fused6(i6);
    Fused8(i8);
  }

  lemma OddLookupsRefine(i1: bv32, i3: bv32, i5: bv32, i7: bv32)
    requires i1 <= 0x3F && i3 <= 0x3F && i5 <= 0x3F && i7 <= 0x3F
    ensures OddLookups(Indices(i7, i5, i3, i1))
         == OddPart(Fips46.S1(i1), Fips46.S3(i3), Fips46.S5(i5), Fips46.S7(i7))
  {
    hide SB1, SB3, SB5, SB7, RotateLeft1, Fips46.P, Fips46.S1, Fips46.S3, Fips46.S5, Fips46.S7;
    Fused1(i1);
    Fused3(i3);
    Fused5(i5);
    Fused7(i7);
  }

  lemma CipherFunctionUnfolds(r: bv32, k: bv48)
    ensures Fips46.F(r, k) == Fips46.P(Selections(
              Fips46.S1(Summed(r, k, 1)), Fips46.S2(Summed(r, k, 2)), Fips46.S3(Summed(r, k, 3)),
              Fips46.S4(Summed(r, k, 4)),
              Fips46.S5(Summed(r, k, 5)), Fips46.S6(Summed(r, k, 6)), Fips46.S7(Summed(r, k, 7)),
              Fips46.S8(Summed(r, k, 8))))
  {
    hide Fips46.P, Fips46.E, Fips46.Group, Fips46.S1, Fips46.S2, Fips46.S3, Fips46.S4,
      Fips46.S5, Fips46.S6, Fips46.S7, Fips46.S8;
  }

  /** A round of lookups is the cipher function, rotated. */
  lemma LookupsRefine(r: bv32, k: bv48)
    ensures Lookups(RotateLeft1(r), EvenGroups(k), OddGroups(k)) == RotateLeft1(Fips46.F(r, k))
  {
    hide Xor, Fips46.P, Fips46.F, EvenGroups, OddGroups, RotateLeft1, RotateRight4, IndicesOf, EvenLookups, OddLookups,
      EvenPart, OddPart, Selections, Summed,
      Fips46.S1, Fips46.S2, Fips46.S3, Fips46.S4, Fips46.S5, Fips46.S6, Fips46.S7, Fips46.S8;
    CipherFunctionUnfolds(r, k);
    EvenIndicesRefine(r, k);
    OddIndicesRefine(r, k);
    EvenLookupsRefine(Summed(r, k, 2), Summed(r, k, 4), Summed(r, k, 6), Summed(r, k, 8));
    OddLookupsRefine(Summed(r, k, 1), Summed(r, k, 3), Summed(r, k, 5), Summed(r, k, 7));
    PermutationIsLinear(
      Fips46.S1(Summed(r, k, 1)), Fips46.S2(Summed(r, k, 2)), Fips46.S3(Summed(r, k, 3)), Fips46.S4(Summed(r, k, 4)),
      Fips46.S5(Summed(r, k, 5)), Fips46.S6(Summed(r, k, 6)), Fips46.S7(Summed(r, k, 7)), Fips46.S8(Summed(r, k, 8)));
  }

  // ----- Rounds -----

  /** Ln and Rn as the working variables hold them. */
  function LnRn(key: bv64, block: bv64, n: nat): Halves {
    Halves(RotateLeft1(Fips46.L(key, block, n)), RotateLeft1(Fips46.R(key, block, n)))
  }

  lemma RotationIsLinear(a: bv32, b: bv32)
    ensures Xor(RotateLeft1(a), RotateLeft1(b)) == RotateLeft1(Xor(a, b))
  {}

  lemma RightHalfStep(l: bv32, r: bv32, k: bv48)
    ensures Xor(RotateLeft1(l), Lookups(RotateLeft1(r), EvenGroups(k), OddGroups(k)))
         == RotateLeft1(Xor(l, Fips46.F(r, k)))
  {
    hide Xor, Lookups, RotateLeft1, EvenGroups, OddGroups, Fips46.F;
    LookupsRefine(r, k);
    RotationIsLinear(l, Fips46.F(r, k));
  }

  lemma RoundRefines(key: bv64, block: bv64, n: nat)
    requires 1 <= n
    ensures Round(Lookups, EvenGroups(Fips46.KS(key, n)), OddGroups(Fips46.KS(key, n)), LnRn(key, block, n - 1))
         == LnRn(key, block, n)
  {
    hide Xor, Lookups, RotateLeft1, EvenGroups, OddGroups, Fips46.F, Fips46.KS, Fips46.InitialPermutation;
    RightHalfStep(Fips46.L(key, block, n - 1), Fips46.R(key, block, n - 1), Fips46.KS(key, n));
  }

  lemma NextRound(key: bv64, block: bv64, sk: seq<bv32>, n: nat)
    requires 1 <= n <= 16 && sk == Schedule(Split(key))
    ensures Round(Lookups, sk[2 * n - 2], sk[2 * n - 1], LnRn(key, block, n - 1)) == LnRn(key, block, n)
  {
    hide Rounds, Lookups, LnRn, Round, EvenGroups, OddGroups, Fips46.KS, Split, ScheduleTo;
    ScheduleRefines(key, 16, n - 1);
    RoundRefines(key, block, n);
  }

  /** After n rounds the working variables hold Ln and Rn. */
  lemma {:induction false} RoundsRefine(key: bv64, block: bv64, sk: seq<bv32>, n: nat)
    requires n <= 16 && sk == Schedule(Split(key))
    ensures Rounds(Lookups, sk[..2 * n], LnRn(key, block, 0)) == LnRn(key, block, n)
  {
    hide Rounds, Lookups, LnRn, Round, Split, ScheduleTo;
    if n == 0 {
      NoRounds(Lookups, sk, LnRn(key, block, 0));
    } else {
      RoundsRefine(key, block, sk, n - 1);
      LastRound(Lookups, sk, n, LnRn(key, block, 0));
      NextRound(key, block, sk, n);
    }
  }

  lemma NoRounds(f: RoundFunction, sk: seq<bv32>, h: Halves)
    ensures Rounds(f, sk[..0], h) == h
  {}

  lemma LastRound(f: RoundFunction, sk: seq<bv32>, n: nat, h: Halves)
    requires 0 < 2 * n <= |sk|
    ensures Rounds(f, sk[..2 * n], h) == Round(f, sk[2 * n - 2], sk[2 * n - 1], Rounds(f, sk[..2 * (n - 1)], h))
  {
    hide Round;
    var last := [sk[2 * n - 2], sk[2 * n - 1]];
    assert sk[..2 * n] == sk[..2 * (n - 1)] + last;
    DesTheory.RoundsConcat(f, sk[..2 * (n - 1)], last, h);
    assert last[2..] == [];
  }

  lemma StartRefines(key: bv64, block: bv64)
    ensures Ip(Split(block)) == LnRn(key, block, 0)
  {
    hide Fips46.InitialPermutation, Fips46.First32, Fips46.Last32, Ip, Split, RotateLeft1;
    InitialPermutationRefines(block);
  }

  lemma PreoutputRefines(key: bv64, block: bv64)
    ensures Join(Fp(LnRn(key, block, 16).Swap())) == Fips46.Encipher(key, block)
  {
    hide Fips46.InversePermutation, Fips46.Concat, Fp, Join, RotateLeft1, Fips46.L, Fips46.R;
    FinalPermutationRefines(Fips46.R(key, block, 16), Fips46.L(key, block, 16));
  }

  /** The block operation is the enciphering computation of the standard. */
  lemma EcbRefinesEncipher(key: bv64, block: bv64)
    ensures Ecb(Schedule(Split(key)), block) == Fips46.Encipher(key, block)
  {
    hide LnRn, Fp, Ip, Split, Join, Lookups, Schedule, Rounds, Fips46.Encipher;
    StartRefines(key, block);
    var sk := Schedule(Split(key));
    RoundsRefine(key, block, sk, 16);
    assert sk[..32] == sk;
    PreoutputRefines(key, block);
  }
}
