/** Complementation: complementing the key and the block complements the ciphertext. The
    argument is made on the standard's cipher, where every permutation moves single bits,
    and carried over to the implementation by the refinement theorem. */
module DesComplement {
  import opened WordOps
  import opened DesCore
  import opened Fips46
  import DesRefinement

  function Not28(x: bv28): bv28 { !x }
  function Not32(x: bv32): bv32 { !x }
  function Not48(x: bv48): bv48 { !x }
  function Not56(x: bv56): bv56 { !x }
  function Not64(x: bv64): bv64 { !x }

  // ----- Single steps -----

  lemma InitialComplement(b: bv64)
    ensures InitialPermutation(Not64(b)) == Not64(InitialPermutation(b))
  {}

  lemma InverseUndoesInitial(b: bv64)
    ensures InversePermutation(InitialPermutation(b)) == b
  {}

  lemma InitialUndoesInverse(b: bv64)
    ensures InitialPermutation(InversePermutation(b)) == b
  {}

  lemma InverseComplement(b: bv64)
    ensures InversePermutation(Not64(b)) == Not64(InversePermutation(b))
  {
    hide InitialPermutation, InversePermutation, Not64;
    var g := InversePermutation(b);
    InitialUndoesInverse(b);
    InitialComplement(g);
    InverseUndoesInitial(Not64(g));
  }

  lemma PermutedChoice1Complement(key: bv64)
    ensures PermutedChoice1(Not64(key)) == Not56(PermutedChoice1(key))
  {}

  lemma PermutedChoice2Bits(c: bv28, d: bv28)
    ensures PermutedChoice2(!c, !d) == !PermutedChoice2(c, d)
  {}

  lemma PermutedChoice2Complement(c: bv28, d: bv28)
    ensures PermutedChoice2(Not28(c), Not28(d)) == Not48(PermutedChoice2(c, d))
  {
    hide PermutedChoice2;
    calc {
      PermutedChoice2(Not28(c), Not28(d));
      PermutedChoice2(!c, !d);
      { PermutedChoice2Bits(c, d); }
      !PermutedChoice2(c, d);
      Not48(PermutedChoice2(c, d));
    }
  }

  lemma RotateOneComplement(x: bv28)
    ensures RotateLeft28(Not28(x), 1) == Not28(RotateLeft28(x, 1))
  {
    RotateOneBits(x);
    hide RotateLeft28;
  }

  lemma RotateOneBits(x: bv28)
    ensures RotateLeft28(!x, 1) == !RotateLeft28(x, 1)
  {}

  lemma RotateTwoBits(x: bv28)
    ensures RotateLeft28(!x, 2) == !RotateLeft28(x, 2)
  {}

  lemma RotateTwoComplement(x: bv28)
    ensures RotateLeft28(Not28(x), 2) == Not28(RotateLeft28(x, 2))
  {
    RotateTwoBits(x);
    hide RotateLeft28;
  }

  lemma SumsCancel(r: bv32, k: bv48)
    ensures E(Not32(r)) ^ Not48(k) == E(r) ^ k
  {}

  lemma XorComplement(a: bv32, b: bv32)
    ensures Xor(Not32(a), b) == Not32(Xor(a, b))
  {}

  lemma First28Complement(p: bv56)
    ensures First28(Not56(p)) == Not28(First28(p))
  {
    assert First28(!p) == !First28(p);
  }

  lemma Last28Complement(p: bv56)
    ensures Last28(Not56(p)) == Not28(Last28(p))
  {
    assert Last28(!p) == !Last28(p);
  }

  lemma First32Complement(p: bv64)
    ensures First32(Not64(p)) == Not32(First32(p))
  {
    assert First32(!p) == !First32(p);
  }

  lemma Last32Complement(p: bv64)
    ensures Last32(Not64(p)) == Not32(Last32(p))
  {
    assert Last32(!p) == !Last32(p);
  }

  lemma ConcatComplement(x: bv32, y: bv32)
    ensures Concat(Not32(x), Not32(y)) == Not64(Concat(x, y))
  {
    calc {
      Concat(Not32(x), Not32(y));
      Concat(!x, !y);
      !Concat(x, y);
      Not64(Concat(x, y));
    }
  }

  // ----- The whole cipher -----

  /** The cipher function does not see the complement. */
  lemma CipherFunctionComplement(r: bv32, k: bv48)
    ensures F(Not32(r), Not48(k)) == F(r, k)
  {
    hide E, P, S1, S2, S3, S4, S5, S6, S7, S8, Group, Not32, Not48;
    SumsCancel(r, k);
  }

  /** Every key half of the schedule is complemented. */
  lemma {:induction false} KeyHalvesComplement(key: bv64, n: nat)
    ensures C(Not64(key), n) == Not28(C(key, n))
    ensures D(Not64(key), n) == Not28(D(key, n))
  {
    hide RotateLeft28, PermutedChoice1, First28, Last28, Not28, Not56, Not64;
    if n == 0 {
      PermutedChoice1Complement(key);
      First28Complement(PermutedChoice1(key));
      Last28Complement(PermutedChoice1(key));
    } else {
      KeyHalvesComplement(key, n - 1);
      RotateOneComplement(C(key, n - 1));
      RotateTwoComplement(C(key, n - 1));
      RotateOneComplement(D(key, n - 1));
      RotateTwoComplement(D(key, n - 1));
    }
  }

  /** Every subkey is complemented. */
  lemma SubkeysComplement(key: bv64, n: nat)
    ensures KS(Not64(key), n) == Not48(KS(key, n))
  {
    hide C, D, PermutedChoice2, Not28, Not48, Not64;
    KeyHalvesComplement(key, n);
    PermutedChoice2Complement(C(key, n), D(key, n));
  }

  /** Every intermediate half is complemented. */
  lemma {:induction false} HalvesComplement(key: bv64, block: bv64, n: nat)
    ensures L(Not64(key), Not64(block), n) == Not32(L(key, block, n))
    ensures R(Not64(key), Not64(block), n) == Not32(R(key, block, n))
  {
    hide F, KS, Xor, InitialPermutation, First32, Last32, Not32, Not48, Not64;
    if n == 0 {
      InitialComplement(block);
      First32Complement(InitialPermutation(block));
      Last32Complement(InitialPermutation(block));
    } else {
      HalvesComplement(key, block, n - 1);
      SubkeysComplement(key, n);
      CipherFunctionComplement(R(key, block, n - 1), KS(key, n));
      XorComplement(L(key, block, n - 1), F(R(key, block, n - 1), KS(key, n)));
    }
  }

  lemma EncipherComplement(key: bv64, block: bv64)
    ensures Encipher(Not64(key), Not64(block)) == Not64(Encipher(key, block))
  {
    hide L, R, InversePermutation, Concat, Not32, Not64;
    HalvesComplement(key, block, 16);
    ConcatComplement(R(key, block, 16), L(key, block, 16));
    InverseComplement(Concat(R(key, block, 16), L(key, block, 16)));
  }

  /** Complementing key and block complements the ciphertext of the implementation. */
  lemma Complementation(key: bv64, block: bv64)
    ensures Ecb(Schedule(Split(Not64(key))), Not64(block)) == Not64(Ecb(Schedule(Split(key)), block))
  {
    hide Ecb, Schedule, Split, Encipher, Not64;
    DesRefinement.EcbRefinesEncipher(key, block);
    DesRefinement.EcbRefinesEncipher(Not64(key), Not64(block));
    EncipherComplement(key, block);
  }
}
