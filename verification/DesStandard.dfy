/** From bytes to bytes: what the stored schedules and the block operations compute is what
    FIPS 46-3 and FIPS 81 define on the bytes of the key, the message and the vector. */
module DesStandard {
  import opened Buffers
  import opened DesCore
  import opened DesTheory
  import opened DesContext
  import opened DesRefinement
  import opened DesBuffers
  import Fips46
  import CbcMode

  // ----- Bytes -----

  function High(a: bv8, b: bv8, c: bv8, d: bv8): bv64 {
    ((a as bv64) << 56) | ((b as bv64) << 48) | ((c as bv64) << 40) | ((d as bv64) << 32)
  }

  function Low(a: bv8, b: bv8, c: bv8, d: bv8): bv64 {
    ((a as bv64) << 24) | ((b as bv64) << 16) | ((c as bv64) << 8) | (d as bv64)
  }

  lemma HighWord(a: bv8, b: bv8, c: bv8, d: bv8)
    ensures (PackWord(a, b, c, d) as bv64) << 32 == High(a, b, c, d)
  {}

  lemma LowWord(a: bv8, b: bv8, c: bv8, d: bv8)
    ensures PackWord(a, b, c, d) as bv64 == Low(a, b, c, d)
  {}

  lemma HighAndLow(a: bv8, b: bv8, c: bv8, d: bv8, e: bv8, f: bv8, g: bv8, h: bv8)
    ensures Fips46.FromBytes([a, b, c, d, e, f, g, h]) == High(a, b, c, d) | Low(e, f, g, h)
  {}

  lemma PackedPairs(a: bv8, b: bv8, c: bv8, d: bv8, e: bv8, f: bv8, g: bv8, h: bv8)
    ensures Join(Halves(PackWord(a, b, c, d), PackWord(e, f, g, h))) == Fips46.FromBytes([a, b, c, d, e, f, g, h])
  {
    hide PackWord, High, Low, Fips46.FromBytes;
    HighWord(a, b, c, d);
    LowWord(e, f, g, h);
    HighAndLow(a, b, c, d, e, f, g, h);
  }

  /** The block read at a place is the standard's block of the eight bytes there. */
  lemma BlockIsItsBytes(s: seq<bv8>, i: nat)
    requires i + 8 <= |s|
    ensures GetBlock(s, i) == Fips46.FromBytes(s[i..i + 8])
  {
    hide Join, PackWord, Fips46.FromBytes;
    PackedPairs(s[i], s[i + 1], s[i + 2], s[i + 3], s[i + 4], s[i + 5], s[i + 6], s[i + 7]);
    assert s[i..i + 8] == [s[i], s[i + 1], s[i + 2], s[i + 3], s[i + 4], s[i + 5], s[i + 6], s[i + 7]];
  }

  /** The key read at a place is the standard's block of the eight bytes there. */
  lemma KeyIsItsBytes(key: seq<bv8>, i: nat)
    requires i + 8 <= |key|
    ensures Join(KeyAt(key, i)) == Fips46.FromBytes(key[i..i + 8])
    ensures KeyAt(key, i) == Split(Fips46.FromBytes(key[i..i + 8]))
  {
    hide Join, Split, GetUint32, Fips46.FromBytes;
    BlockIsItsBytes(key, i);
    SplitJoin(0, KeyAt(key, i));
  }

  // ----- One block -----

  function KeyBits(key: seq<bv8>, i: nat): bv64
    requires i + 8 <= |key|
  {
    Fips46.FromBytes(key[i..i + 8])
  }

  predicate IsKey(key: seq<bv8>) {
    |key| == 8 || |key| == 16 || |key| == 24
  }

  /** c is the ciphertext of p: under a key of eight bytes, by the standard's enciphering;
      under two or three keys, by enciphering, deciphering and enciphering, the first key
      serving as the third of two. */
  ghost predicate Enciphers(key: seq<bv8>, p: bv64, c: bv64)
    requires IsKey(key)
  {
    if |key| == 8 then c == Fips46.Encipher(KeyBits(key, 0), p)
    else
      exists m ::
        && Fips46.Encipher(KeyBits(key, 8), m) == Fips46.Encipher(KeyBits(key, 0), p)
        && c == Fips46.Encipher(KeyBits(key, if |key| == 16 then 0 else 16), m)
  }

  /** The schedule that des_setkey_enc, des3_set2key and des3_set3key leave for encryption. */
  function EncSchedule(key: seq<bv8>): (sk: seq<bv32>)
    requires IsKey(key)
    ensures |sk| == if |key| == 8 then 32 else 96
  {
    if |key| == 8 then Schedule(KeyAt(key, 0))
    else Schedule3(KeyAt(key, 0), KeyAt(key, 8), KeyAt(key, if |key| == 16 then 0 else 16))
  }

  lemma SingleEnciphers(key: seq<bv8>, i: nat, b: bv64)
    requires i + 8 <= |key|
    ensures Ecb(Schedule(KeyAt(key, i)), b) == Fips46.Encipher(KeyBits(key, i), b)
  {
    hide Ecb, Schedule, KeyAt, Fips46.Encipher, Fips46.FromBytes, Split;
    KeyIsItsBytes(key, i);
    EcbRefinesEncipher(KeyBits(key, i), b);
  }

  /** Under the encryption schedule of a key the block operation enciphers. */
  lemma CryptEnciphers(key: seq<bv8>, b: bv64)
    requires IsKey(key)
    ensures Enciphers(key, b, Crypt(EncSchedule(key), b))
  {
    hide Ecb, Ecb3, Schedule, Schedule3, KeyAt, ReversePairs, Fips46.Encipher, KeyBits;
    SingleEnciphers(key, 0, b);
    if |key| != 8 {
      var last := if |key| == 16 then 0 else 16;
      TripleIsEncryptDecryptEncrypt(KeyAt(key, 0), KeyAt(key, 8), KeyAt(key, last), b);
      var first := Ecb(Schedule(KeyAt(key, 0)), b);
      var m := Ecb(ReversePairs(Schedule(KeyAt(key, 8))), first);
      DecryptInvertsEncrypt(KeyAt(key, 8), first);
      SingleEnciphers(key, 8, m);
      SingleEnciphers(key, last, m);
    }
  }

  /** Under the decryption schedule it gives the block that enciphers to its argument. */
  lemma CryptDeciphers(key: seq<bv8>, b: bv64)
    requires IsKey(key)
    ensures Enciphers(key, Crypt(ReversePairs(EncSchedule(key)), b), b)
  {
    hide Ecb, Ecb3, ReversePairs, Enciphers, EncSchedule;
    var sk := EncSchedule(key);
    CryptEnciphers(key, Crypt(ReversePairs(sk), b));
    ReversePairsInvolution(sk);
    if |key| == 8 {
      EcbInverts(ReversePairs(sk), b);
    } else {
      Ecb3Inverts(ReversePairs(sk), b);
    }
  }

  /** One ciphertext for every block under a key, and one block for every ciphertext. */
  lemma EnciphersIsOneToOne(key: seq<bv8>, p: bv64, c: bv64, p': bv64, c': bv64)
    requires IsKey(key) && Enciphers(key, p, c) && Enciphers(key, p', c')
    ensures p == p' <==> c == c'
  {
    hide Fips46.Encipher, KeyBits;
    if |key| == 8 {
      EncipherIsOneToOne(key, 0, p, p');
    } else {
      var last := if |key| == 16 then 0 else 16;
      var m :| Fips46.Encipher(KeyBits(key, 8), m) == Fips46.Encipher(KeyBits(key, 0), p)
        && c == Fips46.Encipher(KeyBits(key, last), m);
      var m' :| Fips46.Encipher(KeyBits(key, 8), m') == Fips46.Encipher(KeyBits(key, 0), p')
        && c' == Fips46.Encipher(KeyBits(key, last), m');
      EncipherIsOneToOne(key, 0, p, p');
      EncipherIsOneToOne(key, 8, m, m');
      EncipherIsOneToOne(key, last, m, m');
    }
  }

  lemma EncipherIsOneToOne(key: seq<bv8>, i: nat, p: bv64, p': bv64)
    requires i + 8 <= |key|
    ensures Fips46.Encipher(KeyBits(key, i), p) == Fips46.Encipher(KeyBits(key, i), p') <==> p == p'
  {
    hide Fips46.Encipher, KeyBits, Ecb, Schedule, KeyAt, ReversePairs;
    SingleEnciphers(key, i, p);
    SingleEnciphers(key, i, p');
    DecryptInvertsEncrypt(KeyAt(key, i), p);
    DecryptInvertsEncrypt(KeyAt(key, i), p');
  }

  // ----- From bytes to bytes -----

  /** des_crypt_ecb and des3_crypt_ecb with an encryption schedule: the eight output bytes are
      the standard's ciphertext of the eight input bytes under the key bytes. */
  lemma EncryptsAsStandard(key: seq<bv8>, input: seq<bv8>, i: nat, before: seq<bv8>, output: seq<bv8>, o: nat)
    requires IsKey(key) && i + 8 <= |input| && o + 8 <= |before|
    requires output == Splice(before, o, PutBlock(Crypt(EncSchedule(key), GetBlock(input, i))))
    ensures Enciphers(key, Fips46.FromBytes(input[i..i + 8]), Fips46.FromBytes(output[o..o + 8]))
  {
    hide Crypt, EncSchedule, GetBlock, PutBlock, Enciphers, Fips46.FromBytes;
    BlockIsItsBytes(input, i);
    BlockIsItsBytes(output, o);
    GetStored(before, o, Crypt(EncSchedule(key), GetBlock(input, i)));
    CryptEnciphers(key, GetBlock(input, i));
  }

  /** With a decryption schedule: the input bytes are the ciphertext of the output bytes. */
  lemma DecryptsAsStandard(key: seq<bv8>, input: seq<bv8>, i: nat, before: seq<bv8>, output: seq<bv8>, o: nat)
    requires IsKey(key) && i + 8 <= |input| && o + 8 <= |before|
    requires output == Splice(before, o, PutBlock(Crypt(ReversePairs(EncSchedule(key)), GetBlock(input, i))))
    ensures Enciphers(key, Fips46.FromBytes(output[o..o + 8]), Fips46.FromBytes(input[i..i + 8]))
  {
    hide Crypt, EncSchedule, GetBlock, PutBlock, Enciphers, Fips46.FromBytes, ReversePairs;
    BlockIsItsBytes(input, i);
    BlockIsItsBytes(output, o);
    GetStored(before, o, Crypt(ReversePairs(EncSchedule(key)), GetBlock(input, i)));
    CryptDeciphers(key, GetBlock(input, i));
  }

  // ----- Cipher block chaining -----

  /** The standard's block k of a buffer. */
  function BlockBits(s: seq<bv8>, k: nat): bv64
    requires 8 * k + 8 <= |s|
  {
    Fips46.FromBytes(s[8 * k..8 * k + 8])
  }

  /** What block k is summed with: the vector, or the ciphertext block before it. */
  function Chained(iv: seq<bv8>, cipher: seq<bv8>, k: nat): bv64
    requires |iv| == 8 && 8 * k <= |cipher|
  {
    if k == 0 then Fips46.FromBytes(iv) else BlockBits(cipher, k - 1)
  }

  lemma BlockAt(s: seq<bv8>, n: nat, k: nat)
    requires 8 * n <= |s| && k < n
    ensures Blocks(s, n)[k] == BlockBits(s, k)
  {
    hide GetBlock, Fips46.FromBytes;
    BlockIsItsBytes(s, 8 * k);
  }

  lemma ChainedAt(iv: seq<bv8>, cipher: seq<bv8>, n: nat, k: nat)
    requires |iv| == 8 && 8 * n <= |cipher| && k < n
    ensures Chained(iv, cipher, k) == if k == 0 then GetBlock(iv, 0) else Blocks(cipher, n)[k - 1]
  {
    hide GetBlock, Fips46.FromBytes, Blocks;
    if k == 0 {
      BlockIsItsBytes(iv, 0);
      assert iv[0..8] == iv;
    } else {
      BlockAt(cipher, n, k - 1);
    }
  }

  lemma SumUndone(p: bv64, v: bv64, c: bv64)
    requires c == SumBlocks(p, v)
    ensures c ^ v == p
  {}

  lemma SumIsXor(a: bv64, b: bv64)
    ensures SumBlocks(a, b) == a ^ b
  {}

  /** CBC encryption, byte for byte: every output block enciphers the exclusive or of its input
      block with the vector or the output block before it. */
  lemma CbcEncryptsAsStandard(key: seq<bv8>, iv: seq<bv8>, input: seq<bv8>, output: seq<bv8>, n: nat, k: nat)
    requires IsKey(key) && |iv| == 8 && 8 * n <= |input| && 8 * n <= |output| && k < n
    requires Blocks(output, n) == EncryptBlocks(EncSchedule(key), GetBlock(iv, 0), Blocks(input, n))
    ensures Enciphers(key, BlockBits(input, k) ^ Chained(iv, output, k), BlockBits(output, k))
  {
    hide Crypt, EncSchedule, GetBlock, Enciphers, Blocks, BlockBits, Chained, SumBlocks;
    CbcMode.EncryptAt(CryptWith(EncSchedule(key)), SumBlocks, GetBlock(iv, 0), Blocks(input, n), k);
    BlockAt(input, n, k);
    BlockAt(output, n, k);
    ChainedAt(iv, output, n, k);
    SumIsXor(BlockBits(input, k), Chained(iv, output, k));
    CryptEnciphers(key, BlockBits(input, k) ^ Chained(iv, output, k));
  }

  /** CBC decryption, byte for byte: every input block is the ciphertext of the exclusive or of
      its output block with the vector or the input block before it. */
  lemma CbcDecryptsAsStandard(key: seq<bv8>, iv: seq<bv8>, input: seq<bv8>, output: seq<bv8>, n: nat, k: nat)
    requires IsKey(key) && |iv| == 8 && 8 * n <= |input| && 8 * n <= |output| && k < n
    requires Blocks(output, n) == DecryptBlocks(ReversePairs(EncSchedule(key)), GetBlock(iv, 0), Blocks(input, n))
    ensures Enciphers(key, BlockBits(output, k) ^ Chained(iv, input, k), BlockBits(input, k))
  {
    hide Crypt, EncSchedule, GetBlock, Enciphers, Blocks, BlockBits, Chained, SumBlocks, ReversePairs;
    CbcMode.DecryptAt(CryptWith(ReversePairs(EncSchedule(key))), SumBlocks, GetBlock(iv, 0), Blocks(input, n), k);
    BlockAt(input, n, k);
    BlockAt(output, n, k);
    ChainedAt(iv, input, n, k);
    var plain := Crypt(ReversePairs(EncSchedule(key)), BlockBits(input, k));
    SumUndone(plain, Chained(iv, input, k), BlockBits(output, k));
    CryptDeciphers(key, BlockBits(input, k));
  }
}
