/** Theorems about the cipher that hold for every key and block: decryption undoes
    encryption, complementation, and the composition laws of the triple cipher. */
module DesTheory {
  import opened DesTables
  import opened DesCore
  import opened WordOps

  // ----- The permutations are mutually inverse -----

  lemma FpUndoesIp(h: Halves)
    ensures Fp(Ip(h)) == h
  {}

  lemma IpUndoesFp(h: Halves)
    ensures Ip(Fp(h)) == h
  {}

  lemma FpInvertsIp(h: Halves)
    ensures Fp(Ip(h)) == h
    ensures Ip(Fp(h)) == h
  {
    hide Ip, Fp;
    FpUndoesIp(h);
    IpUndoesFp(h);
  }

  // ----- Rounds compose and are undone by the reversed schedule -----

  lemma {:induction false} RoundsConcat(f: RoundFunction, a: seq<bv32>, b: seq<bv32>, h: Halves)
    requires |a| % 2 == 0 && |b| % 2 == 0
    ensures Rounds(f, a + b, h) == Rounds(f, b, Rounds(f, a, h))
    decreases |a|
  {
    if a == [] {
      assert a + b == b;
    } else {
      assert (a + b)[2..] == a[2..] + b;
      RoundsConcat(f, a[2..], b, Round(f, a[0], a[1], h));
    }
  }

  lemma RoundSelfInverse(f: RoundFunction, k0: bv32, k1: bv32, h: Halves)
    ensures Round(f, k0, k1, Round(f, k0, k1, h).Swap()) == h.Swap()
  {
    XorTwice(h.x, f(h.y, k0, k1));
  }

  lemma XorTwice(a: bv32, b: bv32)
    ensures Xor(Xor(a, b), b) == a
  {}

  /** Running the reversed schedule on the exchanged halves undoes the schedule, for any
      round function whatever. */
  lemma {:induction false} ReversedRoundsInvert(f: RoundFunction, sk: seq<bv32>, h: Halves)
    requires |sk| % 2 == 0
    ensures Rounds(f, ReversePairs(sk), Rounds(f, sk, h).Swap()) == h.Swap()
    decreases |sk|
  {
    if sk != [] {
      var h1 := Round(f, sk[0], sk[1], h);
      var out := Rounds(f, sk[2..], h1).Swap();
      calc {
        Rounds(f, ReversePairs(sk[2..]) + sk[..2], out);
      == { RoundsConcat(f, ReversePairs(sk[2..]), sk[..2], out); }
        Rounds(f, sk[..2], Rounds(f, ReversePairs(sk[2..]), out));
      == { ReversedRoundsInvert(f, sk[2..], h1); }
        Rounds(f, sk[..2], h1.Swap());
      == { assert sk[..2][2..] == []; }
        Round(f, sk[0], sk[1], h1.Swap());
      == { RoundSelfInverse(f, sk[0], sk[1], h); }
        h.Swap();
      }
    }
  }

  lemma {:induction false} ReversePairsConcat<T>(a: seq<T>, b: seq<T>)
    requires |a| % 2 == 0 && |b| % 2 == 0
    ensures ReversePairs(a + b) == ReversePairs(b) + ReversePairs(a)
    decreases |a|
  {
    EvenSum(|a|, |b|);
    if a == [] {
      assert a + b == b;
    } else {
      assert (a + b)[2..] == a[2..] + b && (a + b)[..2] == a[..2];
      ReversePairsConcat(a[2..], b);
      ConcatAssociates(ReversePairs(b), ReversePairs(a[2..]), a[..2]);
    }
  }

  lemma {:induction false} ReversePairsInvolution<T>(sk: seq<T>)
    requires |sk| % 2 == 0
    ensures ReversePairs(ReversePairs(sk)) == sk
    decreases |sk|
  {
    if sk != [] {
      ReversePairsConcat(ReversePairs(sk[2..]), sk[..2]);
      ReversePairsInvolution(sk[2..]);
      assert ReversePairs(sk[..2]) == sk[..2] by { assert sk[..2][2..] == []; }
      assert sk == sk[..2] + sk[2..];
    }
  }

  /** Where each pair of words goes. */
  lemma {:induction false} ReversePairsAt<T>(sk: seq<T>, i: nat)
    requires |sk| % 2 == 0 && 2 * i < |sk|
    ensures ReversePairs(sk)[2 * i] == sk[|sk| - 2 - 2 * i]
    ensures ReversePairs(sk)[2 * i + 1] == sk[|sk| - 1 - 2 * i]
    decreases |sk|
  {
    if 2 * i < |sk| - 2 {
      ReversePairsAt(sk[2..], i);
    }
  }

  // ----- Feistel inversion -----

  /** The reversed schedule decrypts, whatever the round function. */
  lemma CryptWordsInverts(f: RoundFunction, sk: seq<bv32>, h: Halves)
    requires |sk| % 2 == 0
    ensures CryptWords(f, ReversePairs(sk), CryptWords(f, sk, h)) == h
  {
    FpInvertsIp(Rounds(f, sk, Ip(h)).Swap());
    ReversedRoundsInvert(f, sk, Ip(h));
    FpInvertsIp(h);
  }

  /** Decrypting under the reversed schedule of a key undoes encrypting under the key, and
      the other way round. */
  lemma DecryptInvertsEncrypt(key: Halves, b: bv64)
    ensures Ecb(ReversePairs(Schedule(key)), Ecb(Schedule(key), b)) == b
    ensures Ecb(Schedule(key), Ecb(ReversePairs(Schedule(key)), b)) == b
  {
    EcbInverts(Schedule(key), b);
    ReversePairsInvolution(Schedule(key));
    EcbInverts(ReversePairs(Schedule(key)), b);
  }

  lemma EcbInverts(sk: seq<bv32>, b: bv64)
    requires |sk| == 32
    ensures Ecb(ReversePairs(sk), Ecb(sk, b)) == b
  {
    SplitJoin(b, CryptWords(Lookups, sk, Split(b)));
    CryptWordsInverts(Lookups, sk, Split(b));
  }

  // ----- Triple cipher -----

  /** One fused pass is three block operations in a row, for any three schedules. */
  lemma FusedPassIsThreePasses(f: RoundFunction, a: seq<bv32>, b: seq<bv32>, c: seq<bv32>, h: Halves)
    requires |a| == |b| == |c| == 32
    ensures CryptWords3(f, a + b + c, h) == CryptWords(f, c, CryptWords(f, b, CryptWords(f, a, h)))
  {
    var sk := a + b + c;
    assert sk[..32] == a && sk[32..64] == b && sk[64..] == c;
    var h1 := Rounds(f, a, Ip(h));
    FpInvertsIp(h1.Swap());
    var h2 := Rounds(f, b, h1.Swap());
    FpInvertsIp(h2.Swap());
  }

  /** Triple encryption is encrypt, decrypt, encrypt. */
  lemma TripleIsEncryptDecryptEncrypt(k1: Halves, k2: Halves, k3: Halves, b: bv64)
    ensures Ecb3(Schedule3(k1, k2, k3), b)
         == Ecb(Schedule(k3), Ecb(ReversePairs(Schedule(k2)), Ecb(Schedule(k1), b)))
  {
    var s1, s2, s3 := Schedule(k1), ReversePairs(Schedule(k2)), Schedule(k3);
    FusedPassIsThreePasses(Lookups, s1, s2, s3, Split(b));
    var h1 := CryptWords(Lookups, s1, Split(b));
    SplitJoin(b, h1);
    SplitJoin(b, CryptWords(Lookups, s2, h1));
  }

  lemma ConcatAssociates<T>(a: seq<T>, b: seq<T>, c: seq<T>)
    ensures a + (b + c) == a + b + c
  {}

  lemma EvenSum(a: nat, b: nat)
    requires a % 2 == 0 && b % 2 == 0
    ensures (a + b) % 2 == 0
  {}

  lemma ReversePairsOfThree<T>(s1: seq<T>, s2: seq<T>, s3: seq<T>)
    requires |s1| % 2 == 0 && |s2| % 2 == 0 && |s3| % 2 == 0
    ensures ReversePairs(s1 + s2 + s3) == ReversePairs(s3) + ReversePairs(s2) + ReversePairs(s1)
  {
    hide ReversePairs;
    EvenSum(|s1|, |s2|);
    ReversePairsConcat(s1 + s2, s3);
    ReversePairsConcat(s1, s2);
    ConcatAssociates(ReversePairs(s3), ReversePairs(s2), ReversePairs(s1));
  }

  /** The decryption schedule: the encryption schedule with its 48 pairs reversed. */
  lemma ReversedSchedule3(k1: Halves, k2: Halves, k3: Halves)
    ensures ReversePairs(Schedule3(k1, k2, k3))
         == ReversePairs(Schedule(k3)) + Schedule(k2) + ReversePairs(Schedule(k1))
  {
    ReversePairsOfThree(Schedule(k1), ReversePairs(Schedule(k2)), Schedule(k3));
    ReversePairsInvolution(Schedule(k2));
  }

  /** Triple decryption undoes triple encryption, and the other way round. */
  lemma TripleDecryptInvertsEncrypt(k1: Halves, k2: Halves, k3: Halves, b: bv64)
    ensures Ecb3(ReversePairs(Schedule3(k1, k2, k3)), Ecb3(Schedule3(k1, k2, k3), b)) == b
    ensures Ecb3(Schedule3(k1, k2, k3), Ecb3(ReversePairs(Schedule3(k1, k2, k3)), b)) == b
  {
    Ecb3Inverts(Schedule3(k1, k2, k3), b);
    ReversePairsInvolution(Schedule3(k1, k2, k3));
    Ecb3Inverts(ReversePairs(Schedule3(k1, k2, k3)), b);
  }

  lemma CryptWords3Inverts(f: RoundFunction, s1: seq<bv32>, s2: seq<bv32>, s3: seq<bv32>, h: Halves)
    requires |s1| == |s2| == |s3| == 32
    ensures CryptWords3(f, ReversePairs(s1 + s2 + s3), CryptWords3(f, s1 + s2 + s3, h)) == h
  {
    hide CryptWords, CryptWords3, ReversePairs;
    ReversePairsOfThree(s1, s2, s3);
    FusedPassIsThreePasses(f, s1, s2, s3, h);
    var h1 := CryptWords(f, s1, h);
    var h2 := CryptWords(f, s2, h1);
    var h3 := CryptWords(f, s3, h2);
    FusedPassIsThreePasses(f, ReversePairs(s3), ReversePairs(s2), ReversePairs(s1), h3);
    CryptWordsInverts(f, s3, h2);
    CryptWordsInverts(f, s2, h1);
    CryptWordsInverts(f, s1, h);
  }

  lemma Ecb3Inverts(sk: seq<bv32>, b: bv64)
    requires |sk| == 96
    ensures Ecb3(ReversePairs(sk), Ecb3(sk, b)) == b
  {
    hide CryptWords3, ReversePairs, Split, Join;
    assert sk == sk[..32] + sk[32..64] + sk[64..];
    CryptWords3Inverts(Lookups, sk[..32], sk[32..64], sk[64..], Split(b));
    SplitJoin(b, CryptWords3(Lookups, sk, Split(b)));
  }

  /** With equal first and second keys the triple cipher is the single cipher under the
      third; with equal second and third keys, under the first. */
  lemma TripleCollapses(k: Halves, k': Halves, b: bv64)
    ensures Ecb3(Schedule3(k, k, k'), b) == Ecb(Schedule(k'), b)
    ensures Ecb3(Schedule3(k', k, k), b) == Ecb(Schedule(k'), b)
  {
    TripleIsEncryptDecryptEncrypt(k, k, k', b);
    DecryptInvertsEncrypt(k, b);
    TripleIsEncryptDecryptEncrypt(k', k, k, b);
    DecryptInvertsEncrypt(k, Ecb(Schedule(k'), b));
  }
}
