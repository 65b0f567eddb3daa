/** One-block operations whose input and output may be the same bytes, and CBC over whole
    buffers, in place or from one buffer into another. */
module DesBuffers {
  import opened Buffers
  import opened WordOps
  import opened DesCore
  import opened DesTheory
  import opened DesContext
  import CbcMode

  const DES_ENCRYPT := 1
  const INVALID_INPUT_LENGTH := -0x32

  // ----- Blocks of a buffer -----

  /** The sum of two blocks. */
  function SumBlocks(a: bv64, b: bv64): bv64 {
    a ^ b
  }

  function SumBytes(a: bv8, b: bv8): bv8 {
    a ^ b
  }

  lemma SumBlocksTwice(a: bv64, b: bv64)
    ensures SumBlocks(SumBlocks(a, b), b) == a
  {}

  lemma SumIsSelfInverse()
    ensures CbcMode.SelfInverse(SumBlocks)
  {
    forall a, b
      ensures SumBlocks(SumBlocks(a, b), b) == a
    {
      SumBlocksTwice(a, b);
    }
  }

  /** The first n blocks of a buffer. */
  function Blocks(s: seq<bv8>, n: nat): (r: seq<bv64>)
    requires 8 * n <= |s|
    ensures |r| == n
  {
    seq(n, i requires 0 <= i < n => GetBlock(s, 8 * i))
  }

  lemma SliceElement<T>(s: seq<T>, i: nat, t: seq<T>, j: nat, k: nat)
    requires i + 8 <= |s| && j + 8 <= |t| && s[i..i + 8] == t[j..j + 8] && k < 8
    ensures s[i + k] == t[j + k]
  {
    assert s[i..i + 8][k] == s[i + k] && t[j..j + 8][k] == t[j + k];
  }

  lemma GetBlockIsLocal(s: seq<bv8>, i: nat, t: seq<bv8>, j: nat)
    requires i + 8 <= |s| && j + 8 <= |t| && s[i..i + 8] == t[j..j + 8]
    ensures GetBlock(s, i) == GetBlock(t, j)
  {
    hide PackWord, Join;
    SliceElement(s, i, t, j, 0); SliceElement(s, i, t, j, 1); SliceElement(s, i, t, j, 2); SliceElement(s, i, t, j, 3);
    SliceElement(s, i, t, j, 4); SliceElement(s, i, t, j, 5); SliceElement(s, i, t, j, 6); SliceElement(s, i, t, j, 7);
  }

  /** Storing block c at block position n of a buffer. */
  lemma BlocksAfterStore(s: seq<bv8>, n: nat, c: bv64)
    requires 8 * n + 8 <= |s|
    ensures Blocks(Splice(s, 8 * n, PutBlock(c)), n + 1) == Blocks(s, n) + [c]
    ensures GetBlock(Splice(s, 8 * n, PutBlock(c)), 8 * n) == c
  {
    hide GetBlock, PutBlock;
    var t := Splice(s, 8 * n, PutBlock(c));
    GetPutBlock(c);
    assert t[8 * n..8 * n + 8] == PutBlock(c) == PutBlock(c)[0..8];
    GetBlockIsLocal(t, 8 * n, PutBlock(c), 0);
    forall i | 0 <= i < n
      ensures GetBlock(t, 8 * i) == GetBlock(s, 8 * i)
    {
      assert t[8 * i..8 * i + 8] == s[8 * i..8 * i + 8];
      GetBlockIsLocal(t, 8 * i, s, 8 * i);
    }
  }

  // ----- Sums of bytes -----

  lemma PackWordOfSums(a: bv8, b: bv8, c: bv8, d: bv8, e: bv8, f: bv8, g: bv8, h: bv8)
    ensures PackWord(a ^ e, b ^ f, c ^ g, d ^ h) == PackWord(a, b, c, d) ^ PackWord(e, f, g, h)
  {}

  lemma JoinOfSums(a: bv32, b: bv32, c: bv32, d: bv32)
    ensures Join(Halves(a ^ c, b ^ d)) == Join(Halves(a, b)) ^ Join(Halves(c, d))
  {}

  lemma PackWordOfSumBytes(a: bv8, b: bv8, c: bv8, d: bv8, e: bv8, f: bv8, g: bv8, h: bv8)
    ensures PackWord(SumBytes(a, e), SumBytes(b, f), SumBytes(c, g), SumBytes(d, h))
         == Xor(PackWord(a, b, c, d), PackWord(e, f, g, h))
  {
    hide PackWord;
    PackWordOfSums(a, b, c, d, e, f, g, h);
  }

  lemma JoinOfXors(a: bv32, b: bv32, c: bv32, d: bv32)
    ensures Join(Halves(Xor(a, c), Xor(b, d))) == SumBlocks(Join(Halves(a, b)), Join(Halves(c, d)))
  {
    hide Join;
    JoinOfSums(a, b, c, d);
  }

  lemma SumOfBlocks(s: seq<bv8>, i: nat, v: seq<bv8>, t: seq<bv8>, j: nat)
    requires i + 8 <= |s| && |v| == 8 && j + 8 <= |t|
    requires t[j..j + 8] == seq(8, k requires 0 <= k < 8 => SumBytes(s[i + k], v[k]))
    ensures GetBlock(t, j) == SumBlocks(GetBlock(s, i), GetBlock(v, 0))
  {
    hide SumBytes, PackWord, Join, Xor, SumBlocks;
    var u := seq(8, k requires 0 <= k < 8 => SumBytes(s[i + k], v[k]));
    assert u[0..8] == u;
    GetBlockIsLocal(t, j, u, 0);
    PackWordOfSumBytes(s[i], s[i + 1], s[i + 2], s[i + 3], v[0], v[1], v[2], v[3]);
    PackWordOfSumBytes(s[i + 4], s[i + 5], s[i + 6], s[i + 7], v[4], v[5], v[6], v[7]);
    JoinOfXors(GetUint32(s, i), GetUint32(s, i + 4), GetUint32(v, 0), GetUint32(v, 4));
  }

  /** output[o..o+8] becomes the bytewise sum of src[so..so+8] and iv; output and src may be
      the same buffer at the same place. */
  method XorInto(output: array<bv8>, o: nat, src: array<bv8>, so: nat, iv: array<bv8>)
    requires o + 8 <= output.Length && so + 8 <= src.Length && iv.Length == 8
    requires iv != output && iv != src && (src == output ==> so == o)
    modifies output
    ensures output[..] == Splice(old(output[..]), o,
                                  PutBlock(SumBlocks(GetBlock(old(src[..]), so), GetBlock(iv[..], 0))))
  {
    hide SumBytes, GetBlock, PutBlock, SumBlocks;
    ghost var s, t, v := src[..], output[..], iv[..];
    for k := 0 to 8
      invariant iv[..] == v && (src != output ==> src[..] == s)
      invariant forall j :: o <= j < o + k ==> output[j] == SumBytes(s[so + j - o], v[j - o])
      invariant forall j :: 0 <= j < output.Length && !(o <= j < o + k) ==> output[j] == t[j]
    {
      output[o + k] := SumBytes(src[so + k], iv[k]);
    }
    ghost var r := output[..];
    assert r[o..o + 8] == seq(8, k requires 0 <= k < 8 => SumBytes(s[so + k], v[k]));
    SumOfBlocks(s, so, v, r, o);
    PutGetBlock(r, o);
    assert r == Splice(t, o, r[o..o + 8]);
  }

  // ----- One block -----

  /** The block operation of a single or of a triple schedule. */
  function Crypt(sk: seq<bv32>, b: bv64): bv64
    requires |sk| == 32 || |sk| == 96
  {
    if |sk| == 32 then Ecb(sk, b) else Ecb3(sk, b)
  }

  /** The same, as a block cipher. */
  function CryptWith(sk: seq<bv32>): CbcMode.Cipher<bv64>
    requires |sk| == 32 || |sk| == 96
  {
    (b: bv64) => Crypt(sk, b)
  }

  method PutWords(output: array<bv8>, o: nat, h: Halves)
    requires o + 8 <= output.Length
    modifies output
    ensures output[..] == Splice(old(output[..]), o, PutBlock(Join(h)))
  {
    hide PackWord, Join, Split;
    StoreAll(output, o, PutUint32(h.x));
    StoreAll(output, o + 4, PutUint32(h.y));
    SpliceAppends(old(output[..]), o, PutUint32(h.x), PutUint32(h.y));
    SplitJoin(0, h);
  }

  /** des_crypt_ecb: the input and output may be anywhere, also the same bytes. */
  method CryptEcb(sk: array<bv32>, input: array<bv8>, i: nat, output: array<bv8>, o: nat)
    requires sk.Length == 32 && i + 8 <= input.Length && o + 8 <= output.Length
    modifies output
    ensures output[..] == Splice(old(output[..]), o, PutBlock(Ecb(sk[..], GetBlock(old(input[..]), i))))
  {
    hide Ip, Fp, GetUint32, Join, Split, Rounds, PutBlock;
    var h := Halves(GetUint32(input[..], i), GetUint32(input[..], i + 4));
    SplitJoin(0, h);
    var r := RunRounds(sk, 0, Ip(h));
    assert sk[0..32] == sk[..];
    PutWords(output, o, Fp(r.Swap()));
  }

  /** des3_crypt_ecb: the middle loop runs with the variables exchanged. */
  method Crypt3Ecb(sk: array<bv32>, input: array<bv8>, i: nat, output: array<bv8>, o: nat)
    requires sk.Length == 96 && i + 8 <= input.Length && o + 8 <= output.Length
    modifies output
    ensures output[..] == Splice(old(output[..]), o, PutBlock(Ecb3(sk[..], GetBlock(old(input[..]), i))))
  {
    hide Ip, Fp, GetUint32, Join, Split, Rounds, PutBlock;
    var h := Halves(GetUint32(input[..], i), GetUint32(input[..], i + 4));
    SplitJoin(0, h);
    var r := RunRounds(sk, 0, Ip(h));
    r := RunRounds(sk, 32, r.Swap());
    r := RunRounds(sk, 64, r.Swap());
    assert sk[0..32] == sk[..][..32] && sk[32..64] == sk[..][32..64] && sk[64..96] == sk[..][64..];
    PutWords(output, o, Fp(r.Swap()));
  }

  method CryptBlock(sk: array<bv32>, input: array<bv8>, i: nat, output: array<bv8>, o: nat)
    requires (sk.Length == 32 || sk.Length == 96) && i + 8 <= input.Length && o + 8 <= output.Length
    modifies output
    ensures output[..] == Splice(old(output[..]), o, PutBlock(Crypt(sk[..], GetBlock(old(input[..]), i))))
  {
    hide Ecb, Ecb3, PutBlock, GetBlock;
    if sk.Length == 32 {
      CryptEcb(sk, input, i, output, o);
    } else {
      Crypt3Ecb(sk, input, i, output, o);
    }
  }

  // ----- CBC over a buffer -----

  function EncryptBlocks(sk: seq<bv32>, iv: bv64, ps: seq<bv64>): seq<bv64>
    requires |sk| == 32 || |sk| == 96
  {
    CbcMode.Encrypt(CryptWith(sk), SumBlocks, iv, ps)
  }

  function DecryptBlocks(sk: seq<bv32>, iv: bv64, cs: seq<bv64>): seq<bv64>
    requires |sk| == 32 || |sk| == 96
  {
    CbcMode.Decrypt(CryptWith(sk), SumBlocks, iv, cs)
  }

  lemma EncryptNext(sk: seq<bv32>, iv: bv64, p: bv64, ps: seq<bv64>)
    requires |sk| == 32 || |sk| == 96
    ensures var c := Crypt(sk, SumBlocks(p, iv));
            EncryptBlocks(sk, iv, [p] + ps) == [c] + EncryptBlocks(sk, c, ps)
  {
    hide Crypt, SumBlocks;
    assert ([p] + ps)[1..] == ps;
  }

  lemma DecryptNext(sk: seq<bv32>, iv: bv64, c: bv64, cs: seq<bv64>)
    requires |sk| == 32 || |sk| == 96
    ensures DecryptBlocks(sk, iv, [c] + cs) == [SumBlocks(Crypt(sk, c), iv)] + DecryptBlocks(sk, c, cs)
  {
    hide Crypt, SumBlocks;
    assert ([c] + cs)[1..] == cs;
  }

  lemma SuffixNext<T>(s: seq<T>, n: nat)
    requires n < |s|
    ensures s[n..] == [s[n]] + s[n + 1..]
  {}

  /** A block operation somewhere in a buffer leaves the blocks after it alone. */
  lemma LaterBlocks(s: seq<bv8>, t: seq<bv8>, n: nat, m: nat)
    requires n <= m && 8 * m + 8 <= |s| == |t| && s[8 * n..] == t[8 * n..]
    ensures GetBlock(s, 8 * m) == GetBlock(t, 8 * m)
  {
    assert s[8 * m..8 * m + 8] == s[8 * n..][8 * m - 8 * n..8 * m - 8 * n + 8];
    assert t[8 * m..8 * m + 8] == t[8 * n..][8 * m - 8 * n..8 * m - 8 * n + 8];
    GetBlockIsLocal(s, 8 * m, t, 8 * m);
  }

  lemma NothingLeft(sk: seq<bv32>, iv: bv64, ps: seq<bv64>)
    requires (|sk| == 32 || |sk| == 96) && ps == []
    ensures EncryptBlocks(sk, iv, ps) == [] && DecryptBlocks(sk, iv, ps) == []
  {}

  /** One pass of the encryption loop: the block is summed into the output, encrypted where
      it lies and copied into the chaining vector. */
  method EncryptStep(sk: array<bv32>, i: nat, iv: array<bv8>, input: array<bv8>, output: array<bv8>)
    requires (sk.Length == 32 || sk.Length == 96) && i + 8 <= input.Length && i + 8 <= output.Length
    requires iv.Length == 8 && iv != input && iv != output
    modifies iv, output
    ensures GetBlock(iv[..], 0) == Crypt(sk[..], SumBlocks(GetBlock(old(input[..]), i), GetBlock(old(iv[..]), 0)))
    ensures output[..] == Splice(old(output[..]), i, PutBlock(GetBlock(iv[..], 0)))
  {
    hide GetBlock, PutBlock, Crypt, SumBlocks, Splice;
    ghost var t := output[..];
    ghost var x := SumBlocks(GetBlock(input[..], i), GetBlock(iv[..], 0));
    XorInto(output, i, input, i, iv);
    GetStored(t, i, x);
    CryptBlock(sk, output, i, output, i);
    SpliceOverwrites(t, i, PutBlock(x), PutBlock(Crypt(sk[..], x)));
    GetStored(t, i, Crypt(sk[..], x));
    StoreAll(iv, 0, output[i..i + 8]);
    assert iv[..][0..8] == output[..][i..i + 8];
    GetBlockIsLocal(iv[..], 0, output[..], i);
  }

  /** One pass of the decryption loop; the ciphertext block is saved before it is
      overwritten and becomes the chaining vector. */
  method DecryptStep(sk: array<bv32>, i: nat, iv: array<bv8>, input: array<bv8>, output: array<bv8>)
    requires (sk.Length == 32 || sk.Length == 96) && i + 8 <= input.Length && i + 8 <= output.Length
    requires iv.Length == 8 && iv != input && iv != output
    modifies iv, output
    ensures GetBlock(iv[..], 0) == GetBlock(old(input[..]), i)
    ensures output[..] == Splice(old(output[..]), i,
                                 PutBlock(SumBlocks(Crypt(sk[..], GetBlock(old(input[..]), i)),
                                                    GetBlock(old(iv[..]), 0))))
  {
    hide GetBlock, PutBlock, Crypt, SumBlocks, Splice;
    ghost var s, t := input[..], output[..];
    var temp := input[i..i + 8];
    CryptBlock(sk, input, i, output, i);
    ghost var x := Crypt(sk[..], GetBlock(s, i));
    GetStored(t, i, x);
    ghost var y := SumBlocks(x, GetBlock(iv[..], 0));
    XorInto(output, i, output, i, iv);
    SpliceOverwrites(t, i, PutBlock(x), PutBlock(y));
    StoreAll(iv, 0, temp);
    assert iv[..][0..8] == s[i..i + 8];
    GetBlockIsLocal(iv[..], 0, s, i);
  }

  lemma GetStored(s: seq<bv8>, i: nat, c: bv64)
    requires i + 8 <= |s|
    ensures GetBlock(Splice(s, i, PutBlock(c)), i) == c
  {
    hide GetBlock, PutBlock;
    var t := Splice(s, i, PutBlock(c));
    GetPutBlock(c);
    assert t[i..i + 8] == PutBlock(c) == PutBlock(c)[0..8];
    GetBlockIsLocal(t, i, PutBlock(c), 0);
  }

  method EncryptBuffer(sk: array<bv32>, count: nat, iv: array<bv8>, input: array<bv8>, output: array<bv8>)
    requires (sk.Length == 32 || sk.Length == 96) && 8 * count <= input.Length && 8 * count <= output.Length
    requires iv.Length == 8 && iv != input && iv != output
    modifies iv, output
    ensures Blocks(output[..], count)
         == EncryptBlocks(sk[..], GetBlock(old(iv[..]), 0), Blocks(old(input[..]), count))
    ensures GetBlock(iv[..], 0) == CbcMode.FinalIv(GetBlock(old(iv[..]), 0), Blocks(output[..], count))
    ensures output[8 * count..] == old(output[8 * count..])
  {
    hide GetBlock, PutBlock, Crypt, SumBlocks, EncryptBlocks, Splice;
    ghost var key, s, t, v0 := sk[..], input[..], output[..], GetBlock(iv[..], 0);
    ghost var ps := Blocks(s, count);
    ghost var v := v0;
    assert ps[0..] == ps;
    var n := 0;
    while n < count
      invariant 0 <= n <= count
      invariant GetBlock(iv[..], 0) == v && v == CbcMode.FinalIv(v0, Blocks(output[..], n))
      invariant EncryptBlocks(key, v0, ps) == Blocks(output[..], n) + EncryptBlocks(key, v, ps[n..])
      invariant input[..][8 * n..] == s[8 * n..]
      invariant output[..][8 * count..] == t[8 * count..]
    {
      ghost var before := output[..];
      LaterBlocks(input[..], s, n, n);
      SuffixNext(ps, n);
      EncryptNext(key, v, ps[n], ps[n + 1..]);
      EncryptStep(sk, 8 * n, iv, input, output);
      v := GetBlock(iv[..], 0);
      BlocksAfterStore(before, n, v);
      n := n + 1;
    }
    NothingLeft(key, v, ps[count..]);
  }

  method DecryptBuffer(sk: array<bv32>, count: nat, iv: array<bv8>, input: array<bv8>, output: array<bv8>)
    requires (sk.Length == 32 || sk.Length == 96) && 8 * count <= input.Length && 8 * count <= output.Length
    requires iv.Length == 8 && iv != input && iv != output
    modifies iv, output
    ensures Blocks(output[..], count)
         == DecryptBlocks(sk[..], GetBlock(old(iv[..]), 0), Blocks(old(input[..]), count))
    ensures GetBlock(iv[..], 0) == CbcMode.FinalIv(GetBlock(old(iv[..]), 0), Blocks(old(input[..]), count))
    ensures output[8 * count..] == old(output[8 * count..])
  {
    hide GetBlock, PutBlock, Crypt, SumBlocks, DecryptBlocks, Splice;
    ghost var key, s, t, v0 := sk[..], input[..], output[..], GetBlock(iv[..], 0);
    ghost var cs := Blocks(s, count);
    ghost var v := v0;
    assert cs[0..] == cs;
    var n := 0;
    while n < count
      invariant 0 <= n <= count
      invariant GetBlock(iv[..], 0) == v && v == CbcMode.FinalIv(v0, cs[..n])
      invariant DecryptBlocks(key, v0, cs) == Blocks(output[..], n) + DecryptBlocks(key, v, cs[n..])
      invariant input[..][8 * n..] == s[8 * n..]
      invariant output[..][8 * count..] == t[8 * count..]
    {
      ghost var before := output[..];
      LaterBlocks(input[..], s, n, n);
      SuffixNext(cs, n);
      DecryptNext(key, v, cs[n], cs[n + 1..]);
      DecryptStep(sk, 8 * n, iv, input, output);
      BlocksAfterStore(before, n, SumBlocks(Crypt(key, cs[n]), v));
      v := cs[n];
      n := n + 1;
    }
    NothingLeft(key, v, cs[count..]);
    assert cs[..count] == cs;
  }

  /** des_crypt_cbc and des3_crypt_cbc: the key schedule decides which block operation runs.
      The input and output may be the same buffer. */
  method CryptCbc(sk: array<bv32>, mode: int, length: nat, iv: array<bv8>, input: array<bv8>, output: array<bv8>)
    returns (r: int)
    requires (sk.Length == 32 || sk.Length == 96) && length <= input.Length && length <= output.Length
    requires iv.Length == 8 && iv != input && iv != output
    modifies iv, output
    ensures r == if length % 8 != 0 then INVALID_INPUT_LENGTH else 0
    ensures r != 0 ==> output[..] == old(output[..]) && iv[..] == old(iv[..])
    ensures r == 0 ==>
              var ps := Blocks(old(input[..]), length / 8);
              && Blocks(output[..], length / 8)
                 == (if mode == DES_ENCRYPT then EncryptBlocks(sk[..], GetBlock(old(iv[..]), 0), ps)
                     else DecryptBlocks(sk[..], GetBlock(old(iv[..]), 0), ps))
              && GetBlock(iv[..], 0)
                 == CbcMode.FinalIv(GetBlock(old(iv[..]), 0),
                                    if mode == DES_ENCRYPT then Blocks(output[..], length / 8) else ps)
              && output[length..] == old(output[length..])
  {
    hide GetBlock, EncryptBlocks, DecryptBlocks;
    if length % 8 != 0 {
      return INVALID_INPUT_LENGTH;
    }
    if mode == DES_ENCRYPT {
      EncryptBuffer(sk, length / 8, iv, input, output);
    } else {
      DecryptBuffer(sk, length / 8, iv, input, output);
    }
    r := 0;
  }

  // ----- What a caller gets -----

  lemma CryptWithUndoes(sk: seq<bv32>)
    requires |sk| == 32 || |sk| == 96
    ensures CbcMode.Undoes(CryptWith(ReversePairs(sk)), CryptWith(sk))
  {
    hide Ecb, Ecb3, ReversePairs;
    forall b
      ensures Crypt(ReversePairs(sk), Crypt(sk, b)) == b
    {
      if |sk| == 32 {
        EcbInverts(sk, b);
      } else {
        Ecb3Inverts(sk, b);
      }
    }
  }

  /** CBC decryption under the reversed schedule and the same starting vector gives back the
      message, for single and triple schedules and any number of blocks. */
  lemma CbcRoundTrip(sk: seq<bv32>, iv: bv64, ps: seq<bv64>)
    requires |sk| == 32 || |sk| == 96
    ensures DecryptBlocks(ReversePairs(sk), iv, EncryptBlocks(sk, iv, ps)) == ps
  {
    hide ReversePairs, SumBlocks, CryptWith;
    CryptWithUndoes(sk);
    SumIsSelfInverse();
    CbcMode.DecryptInvertsEncrypt(CryptWith(ReversePairs(sk)), CryptWith(sk), SumBlocks, iv, ps);
  }

  /** Blocks fix the bytes of a buffer of whole blocks. */
  lemma BlocksFixBytes(s: seq<bv8>, t: seq<bv8>, n: nat)
    requires |s| == |t| == 8 * n && Blocks(s, n) == Blocks(t, n)
    ensures s == t
  {
    hide GetBlock, PutBlock;
    forall k | 0 <= k < 8 * n
      ensures s[k] == t[k]
    {
      var i := k / 8;
      assert GetBlock(s, 8 * i) == Blocks(s, n)[i] == Blocks(t, n)[i] == GetBlock(t, 8 * i);
      PutGetBlock(s, 8 * i);
      PutGetBlock(t, 8 * i);
      assert s[k] == s[8 * i..8 * i + 8][k - 8 * i] && t[k] == t[8 * i..8 * i + 8][k - 8 * i];
    }
  }
}
