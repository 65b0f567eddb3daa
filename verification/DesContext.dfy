/** The schedules, built in place in word arrays, and the rounds that read them. */
module DesContext {
  import opened WordOps
  import opened Buffers
  import opened DesCore
  import opened DesTheory

  // ----- Key schedules -----

  function KeyAt(key: seq<bv8>, i: nat): Halves
    requires i + 8 <= |key|
  {
    Halves(GetUint32(key, i), GetUint32(key, i + 4))
  }

  /** Stores the schedule of the key at key[keyAt..] into sk from base on. */
  method SetKey(sk: array<bv32>, base: nat, key: seq<bv8>, keyAt: nat)
    requires base + 32 <= sk.Length && keyAt + 8 <= |key|
    modifies sk
    ensures sk[..] == Splice(old(sk[..]), base, Schedule(KeyAt(key, keyAt)))
  {
    hide Pc1, RotateHalves, Subkey0, Subkey1, KeyAt, Splice;
    ghost var s := sk[..];
    var k := KeyAt(key, keyAt);
    var h := Pc1(k);
    assert sk[..] == Splice(s, base, ScheduleTo(k, 0));
    for i := 0 to 16
      invariant h == KeyHalves(k, i)
      invariant sk[..] == Splice(s, base, ScheduleTo(k, i))
    {
      h := RotateHalves(i, h);
      SpliceAppends(s, base, ScheduleTo(k, i), [Subkey0(h.x, h.y), Subkey1(h.x, h.y)]);
      StorePair(sk, base + 2 * i, Subkey0(h.x, h.y), Subkey1(h.x, h.y));
    }
  }

  /** Where word j of a schedule of n words goes when its pairs are reversed. */
  function Mirror(n: nat, j: nat): (r: nat)
    requires n % 2 == 0 && j < n
    ensures r < n
  {
    if j % 2 == 0 then n - 2 - j else n - j
  }

  lemma MirrorPair(j: nat)
    requires j < 32 && j % 2 == 0
    ensures Mirror(32, j) == 30 - j && Mirror(32, j + 1) == 31 - j
  {}

  /** r is s with its pairs reversed, word by word. */
  ghost predicate Mirrors<T(!new)>(r: seq<T>, s: seq<T>) {
    |s| % 2 == 0 && |r| == |s| && forall j :: 0 <= j < |s| ==> r[j] == s[Mirror(|s|, j)]
  }

  lemma MirrorsIsReverse<T(!new)>(r: seq<T>, s: seq<T>)
    requires Mirrors(r, s)
    ensures r == ReversePairs(s)
  {
    forall j | 0 <= j < |s|
      ensures r[j] == ReversePairs(s)[j]
    {
      ReversePairsAt(s, j / 2);
      assert j == 2 * (j / 2) || j == 2 * (j / 2) + 1;
    }
  }

  /** Exchanges pairs end for end, in place. */
  method ReverseInPlace<T(!new)>(sk: array<T>)
    requires sk.Length == 32
    modifies sk
    ensures sk[..] == ReversePairs(old(sk[..]))
  {
    hide Mirror;
    ghost var s := sk[..];
    var i := 0;
    while i < 16
      invariant 0 <= i <= 16 && i % 2 == 0
      invariant forall j :: 0 <= j < i || 32 - i <= j < 32 ==> sk[j] == s[Mirror(32, j)]
      invariant forall j :: i <= j < 32 - i ==> sk[j] == s[j]
    {
      MirrorPair(i);
      MirrorPair(30 - i);
      sk[i], sk[30 - i] := sk[30 - i], sk[i];
      sk[i + 1], sk[31 - i] := sk[31 - i], sk[i + 1];
      i := i + 2;
    }
    MirrorsIsReverse(sk[..], s);
  }

  /** des_setkey_enc. */
  method SetKeyEnc(sk: array<bv32>, key: seq<bv8>)
    requires sk.Length == 32 && |key| == 8
    modifies sk
    ensures sk[..] == Schedule(KeyAt(key, 0))
  {
    hide Schedule, KeyAt;
    SetKey(sk, 0, key, 0);
  }

  /** des_setkey_dec: the encryption schedule with its pairs exchanged end for end. */
  method SetKeyDec(sk: array<bv32>, key: seq<bv8>)
    requires sk.Length == 32 && |key| == 8
    modifies sk
    ensures sk[..] == ReversePairs(Schedule(KeyAt(key, 0)))
  {
    hide Schedule, KeyAt, ReversePairs;
    SetKey(sk, 0, key, 0);
    assert sk[..] == Schedule(KeyAt(key, 0));
    ReverseInPlace(sk);
  }

  /** Word j of each third of a triple schedule, for all j below n. */
  ghost predicate Thirds<T(!new)>(a: seq<T>, n: nat, x: seq<T>, y: seq<T>, z: seq<T>) {
    && |a| == 96 && |x| == |y| == |z| == 32 && n <= 32
    && a[..n] == x[..n] && a[32..32 + n] == y[..n] && a[64..64 + n] == z[..n]
  }

  lemma AllThirds<T(!new)>(a: seq<T>, x: seq<T>, y: seq<T>, z: seq<T>)
    requires Thirds(a, 32, x, y, z)
    ensures a == x + y + z
  {}

  /** One iteration for two keys: dsk's first and last third are esk's first third
      mirrored, esk's middle third is dsk's mirrored, esk's last third is its first. */
  method CopyTwoKeyPair<T(!new)>(esk: array<T>, dsk: array<T>, i: nat)
    requires esk != dsk && esk.Length == dsk.Length == 96 && i < 31
    modifies esk, dsk
    ensures esk[..] == old(esk[..])[i + 32 := old(dsk[62 - i])][i + 33 := old(dsk[63 - i])]
                                   [i + 64 := old(esk[i])][i + 65 := old(esk[i + 1])]
    ensures dsk[..] == old(dsk[..])[i := old(esk[30 - i])][i + 1 := old(esk[31 - i])]
                                   [i + 64 := old(esk[30 - i])][i + 65 := old(esk[31 - i])]
  {
    dsk[i] := esk[30 - i];
    dsk[i + 1] := esk[31 - i];
    esk[i + 32] := dsk[62 - i];
    esk[i + 33] := dsk[63 - i];
    esk[i + 64] := esk[i];
    esk[i + 65] := esk[i + 1];
    dsk[i + 64] := dsk[i];
    dsk[i + 65] := dsk[i + 1];
  }

  /** One iteration for three keys. */
  method CopyThreeKeyPair<T(!new)>(esk: array<T>, dsk: array<T>, i: nat)
    requires esk != dsk && esk.Length == dsk.Length == 96 && i < 31
    modifies esk, dsk
    ensures esk[..] == old(esk[..])[i + 32 := old(dsk[62 - i])][i + 33 := old(dsk[63 - i])]
    ensures dsk[..] == old(dsk[..])[i := old(esk[94 - i])][i + 1 := old(esk[95 - i])]
                                   [i + 64 := old(esk[30 - i])][i + 65 := old(esk[31 - i])]
  {
    dsk[i] := esk[94 - i];
    dsk[i + 1] := esk[95 - i];
    esk[i + 32] := dsk[62 - i];
    esk[i + 33] := dsk[63 - i];
    dsk[i + 64] := esk[30 - i];
    dsk[i + 65] := esk[31 - i];
  }

  lemma ReverseIsMirrored<T(!new)>(s: seq<T>, j: nat)
    requires |s| == 32 && j < 31 && j % 2 == 0
    ensures ReversePairs(s)[j] == s[30 - j] && ReversePairs(s)[j + 1] == s[31 - j]
  {
    ReversePairsAt(s, j / 2);
  }

  lemma ThirdsStep<T(!new)>(a: seq<T>, n: nat, x: seq<T>, y: seq<T>, z: seq<T>, a': seq<T>)
    requires Thirds(a, n, x, y, z) && n < 31 && |a'| == 96
    requires a'[..n] == a[..n] && a'[32..32 + n] == a[32..32 + n] && a'[64..64 + n] == a[64..64 + n]
    requires a'[n] == x[n] && a'[n + 1] == x[n + 1] && a'[n + 32] == y[n] && a'[n + 33] == y[n + 1]
    requires a'[n + 64] == z[n] && a'[n + 65] == z[n + 1]
    ensures Thirds(a', n + 2, x, y, z)
  {}

  /** Fills the rest of both triple schedules of two keys, word pair by word pair. */
  method FillTwoKeys<T(!new)>(esk: array<T>, dsk: array<T>, ghost s1: seq<T>, ghost s2: seq<T>)
    requires esk != dsk && esk.Length == dsk.Length == 96 && |s1| == |s2| == 32
    requires esk[..32] == s1 && dsk[32..64] == s2
    modifies esk, dsk
    ensures esk[..] == s1 + ReversePairs(s2) + s1
    ensures dsk[..] == ReversePairs(s1) + s2 + ReversePairs(s1)
  {
    ghost var r1, r2 := ReversePairs(s1), ReversePairs(s2);
    NoThirds(esk[..], s1, r2, s1);
    NoThirds(dsk[..], r1, s2, r1);
    var i := 0;
    while i < 32
      invariant 0 <= i <= 32 && i % 2 == 0
      invariant esk[..][..32] == s1 && dsk[..][32..64] == s2
      invariant Thirds(esk[..], i, s1, r2, s1)
      invariant Thirds(dsk[..], i, r1, s2, r1)
    {
      ReverseIsMirrored(s1, i);
      ReverseIsMirrored(s2, i);
      ghost var e, d := esk[..], dsk[..];
      CopyTwoKeyPair(esk, dsk, i);
      TwoKeyStep(e, d, esk[..], dsk[..], i, s1, s2);
      i := i + 2;
    }
    AllThirds(esk[..], s1, r2, s1);
    AllThirds(dsk[..], r1, s2, r1);
  }

  lemma NoThirds<T(!new)>(a: seq<T>, x: seq<T>, y: seq<T>, z: seq<T>)
    requires |a| == 96 && |x| == |y| == |z| == 32
    ensures Thirds(a, 0, x, y, z)
  {}

  lemma TwoKeyStep<T(!new)>(e: seq<T>, d: seq<T>, e': seq<T>, d': seq<T>, i: nat, s1: seq<T>, s2: seq<T>)
    requires |e| == |d| == 96 && |s1| == |s2| == 32 && i < 31 && i % 2 == 0
    requires e[..32] == s1 && d[32..64] == s2
    requires Thirds(e, i, s1, ReversePairs(s2), s1) && Thirds(d, i, ReversePairs(s1), s2, ReversePairs(s1))
    requires e' == e[i + 32 := d[62 - i]][i + 33 := d[63 - i]][i + 64 := e[i]][i + 65 := e[i + 1]]
    requires d' == d[i := e[30 - i]][i + 1 := e[31 - i]][i + 64 := e[30 - i]][i + 65 := e[31 - i]]
    ensures e'[..32] == s1 && d'[32..64] == s2
    ensures Thirds(e', i + 2, s1, ReversePairs(s2), s1) && Thirds(d', i + 2, ReversePairs(s1), s2, ReversePairs(s1))
  {
    ReverseIsMirrored(s1, i);
    ReverseIsMirrored(s2, i);
    ThirdsStep(e, i, s1, ReversePairs(s2), s1, e');
    ThirdsStep(d, i, ReversePairs(s1), s2, ReversePairs(s1), d');
  }

  lemma ThreeKeyStep<T(!new)>(e: seq<T>, d: seq<T>, e': seq<T>, d': seq<T>, i: nat, s1: seq<T>, s2: seq<T>, s3: seq<T>)
    requires |e| == |d| == 96 && |s1| == |s2| == |s3| == 32 && i < 31 && i % 2 == 0
    requires e[..32] == s1 && d[32..64] == s2 && e[64..] == s3
    requires Thirds(e, i, s1, ReversePairs(s2), s3) && Thirds(d, i, ReversePairs(s3), s2, ReversePairs(s1))
    requires e' == e[i + 32 := d[62 - i]][i + 33 := d[63 - i]]
    requires d' == d[i := e[94 - i]][i + 1 := e[95 - i]][i + 64 := e[30 - i]][i + 65 := e[31 - i]]
    ensures e'[..32] == s1 && d'[32..64] == s2 && e'[64..] == s3
    ensures Thirds(e', i + 2, s1, ReversePairs(s2), s3) && Thirds(d', i + 2, ReversePairs(s3), s2, ReversePairs(s1))
  {
    ReverseIsMirrored(s1, i);
    ReverseIsMirrored(s2, i);
    ReverseIsMirrored(s3, i);
    ThirdsStep(e, i, s1, ReversePairs(s2), s3, e');
    ThirdsStep(d, i, ReversePairs(s3), s2, ReversePairs(s1), d');
  }

  /** Fills the rest of both triple schedules of three keys. */
  method FillThreeKeys<T(!new)>(esk: array<T>, dsk: array<T>, ghost s1: seq<T>, ghost s2: seq<T>, ghost s3: seq<T>)
    requires esk != dsk && esk.Length == dsk.Length == 96 && |s1| == |s2| == |s3| == 32
    requires esk[..32] == s1 && dsk[32..64] == s2 && esk[64..] == s3
    modifies esk, dsk
    ensures esk[..] == s1 + ReversePairs(s2) + s3
    ensures dsk[..] == ReversePairs(s3) + s2 + ReversePairs(s1)
  {
    ghost var r1, r2, r3 := ReversePairs(s1), ReversePairs(s2), ReversePairs(s3);
    NoThirds(esk[..], s1, r2, s3);
    NoThirds(dsk[..], r3, s2, r1);
    var i := 0;
    while i < 32
      invariant 0 <= i <= 32 && i % 2 == 0
      invariant esk[..][..32] == s1 && dsk[..][32..64] == s2 && esk[..][64..] == s3
      invariant Thirds(esk[..], i, s1, r2, s3)
      invariant Thirds(dsk[..], i, r3, s2, r1)
    {
      ghost var e, d := esk[..], dsk[..];
      CopyThreeKeyPair(esk, dsk, i);
      ThreeKeyStep(e, d, esk[..], dsk[..], i, s1, s2, s3);
      i := i + 2;
    }
    AllThirds(esk[..], s1, r2, s3);
    AllThirds(dsk[..], r3, s2, r1);
  }

  /** Both schedules of the triple cipher with two keys: the third key is the first. */
  method Set2Key(esk: array<bv32>, dsk: array<bv32>, key: seq<bv8>)
    requires esk != dsk && esk.Length == dsk.Length == 96 && |key| == 16
    modifies esk, dsk
    ensures esk[..] == Schedule3(KeyAt(key, 0), KeyAt(key, 8), KeyAt(key, 0))
    ensures dsk[..] == ReversePairs(esk[..])
  {
    hide Schedule, KeyAt, ReversePairs;
    SetKey(esk, 0, key, 0);
    SetKey(dsk, 32, key, 8);
    FillTwoKeys(esk, dsk, Schedule(KeyAt(key, 0)), Schedule(KeyAt(key, 8)));
    ReversedSchedule3(KeyAt(key, 0), KeyAt(key, 8), KeyAt(key, 0));
  }

  /** Both schedules of the triple cipher with three keys. */
  method Set3Key(esk: array<bv32>, dsk: array<bv32>, key: seq<bv8>)
    requires esk != dsk && esk.Length == dsk.Length == 96 && |key| == 24
    modifies esk, dsk
    ensures esk[..] == Schedule3(KeyAt(key, 0), KeyAt(key, 8), KeyAt(key, 16))
    ensures dsk[..] == ReversePairs(esk[..])
  {
    hide Schedule, KeyAt, ReversePairs;
    SetKey(esk, 0, key, 0);
    SetKey(dsk, 32, key, 8);
    SetKey(esk, 64, key, 16);
    FillThreeKeys(esk, dsk, Schedule(KeyAt(key, 0)), Schedule(KeyAt(key, 8)), Schedule(KeyAt(key, 16)));
    ReversedSchedule3(KeyAt(key, 0), KeyAt(key, 8), KeyAt(key, 16));
  }

  // ----- Rounds in place -----

  lemma TwoRounds(f: RoundFunction, sk: seq<bv32>, x: bv32, y: bv32)
    requires |sk| >= 4 && |sk| % 2 == 0
    ensures var x' := Xor(x, f(y, sk[0], sk[1]));
            Rounds(f, sk, Halves(x, y)) == Rounds(f, sk[4..], Halves(x', Xor(y, f(x', sk[2], sk[3]))))
  {
    hide Xor;
    assert sk[2..][2..] == sk[4..];
  }

  /** Eight iterations of the loop body: sixteen rounds, without exchanging variables. */
  method RunRounds(sk: array<bv32>, base: nat, h: Halves) returns (r: Halves)
    requires base + 32 <= sk.Length
    ensures r == Rounds(Lookups, sk[base..base + 32], h)
  {
    hide Xor, Lookups, Rounds;
    ghost var s := sk[base..base + 32];
    var x, y := h.x, h.y;
    assert s[0..] == s;
    for i := 0 to 8
      invariant Rounds(Lookups, s[4 * i..], Halves(x, y)) == Rounds(Lookups, s, h)
    {
      TwoRounds(Lookups, s[4 * i..], x, y);
      assert s[4 * i..][4..] == s[4 * (i + 1)..];
      x := Xor(x, Lookups(y, sk[base + 4 * i], sk[base + 4 * i + 1]));
      y := Xor(y, Lookups(x, sk[base + 4 * i + 2], sk[base + 4 * i + 3]));
    }
    NoRoundsLeft(Lookups, s[32..], Halves(x, y));
    r := Halves(x, y);
  }

  lemma NoRoundsLeft(f: RoundFunction, sk: seq<bv32>, h: Halves)
    requires sk == []
    ensures Rounds(f, sk, h) == h
  {}
}
