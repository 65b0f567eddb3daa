/** Cipher block chaining over whole blocks, for any block cipher and any block type whose
    sum undoes itself. */
module CbcMode {

  type Cipher<!B> = B -> B
  type Sum<!B> = (B, B) -> B

  function Encrypt<B>(e: Cipher<B>, sum: Sum<B>, iv: B, ps: seq<B>): (cs: seq<B>)
    ensures |cs| == |ps|
    decreases |ps|
  {
    if ps == [] then [] else var c := e(sum(ps[0], iv)); [c] + Encrypt(e, sum, c, ps[1..])
  }

  function Decrypt<B>(d: Cipher<B>, sum: Sum<B>, iv: B, cs: seq<B>): (ps: seq<B>)
    ensures |ps| == |cs|
    decreases |cs|
  {
    if cs == [] then [] else [sum(d(cs[0]), iv)] + Decrypt(d, sum, cs[0], cs[1..])
  }

  /** The chaining value that a call leaves behind. */
  function FinalIv<B>(iv: B, cs: seq<B>): B {
    if |cs| == 0 then iv else cs[|cs| - 1]
  }

  /** d undoes e. */
  ghost predicate Undoes<B(!new)>(d: Cipher<B>, e: Cipher<B>) {
    forall b :: d(e(b)) == b
  }

  ghost predicate SelfInverse<B(!new)>(sum: Sum<B>) {
    forall a, b :: sum(sum(a, b), b) == a
  }

  /** Decryption from the starting vector undoes encryption, for messages of any length. */
  lemma {:induction false} DecryptInvertsEncrypt<B(!new)>(d: Cipher<B>, e: Cipher<B>, sum: Sum<B>, iv: B, ps: seq<B>)
    requires Undoes(d, e) && SelfInverse(sum)
    ensures Decrypt(d, sum, iv, Encrypt(e, sum, iv, ps)) == ps
    decreases |ps|
  {
    if ps != [] {
      var c := e(sum(ps[0], iv));
      var cs := Encrypt(e, sum, iv, ps);
      assert cs[0] == c && cs[1..] == Encrypt(e, sum, c, ps[1..]);
      DecryptInvertsEncrypt(d, e, sum, c, ps[1..]);
    }
  }

  lemma FinalIvConcat<B>(iv: B, x: seq<B>, y: seq<B>)
    ensures FinalIv(iv, x + y) == FinalIv(FinalIv(iv, x), y)
  {}

  lemma {:induction false} EncryptSplits<B>(e: Cipher<B>, sum: Sum<B>, iv: B, a: seq<B>, b: seq<B>)
    ensures Encrypt(e, sum, iv, a + b) == Encrypt(e, sum, iv, a)
                                           + Encrypt(e, sum, FinalIv(iv, Encrypt(e, sum, iv, a)), b)
    decreases |a|
  {
    if a == [] {
      assert a + b == b;
    } else {
      var c := e(sum(a[0], iv));
      var rest := Encrypt(e, sum, c, a[1..]);
      assert (a + b)[0] == a[0] && (a + b)[1..] == a[1..] + b;
      EncryptSplits(e, sum, c, a[1..], b);
      FinalIvConcat(iv, [c], rest);
      assert [c] + (rest + Encrypt(e, sum, FinalIv(c, rest), b)) == [c] + rest + Encrypt(e, sum, FinalIv(c, rest), b);
    }
  }

  /** One call over a + b equals a call over a and a call over b with the vector it left. */
  lemma EncryptConcat<B>(e: Cipher<B>, sum: Sum<B>, iv: B, a: seq<B>, b: seq<B>)
    ensures var iv' := FinalIv(iv, Encrypt(e, sum, iv, a));
            && Encrypt(e, sum, iv, a + b) == Encrypt(e, sum, iv, a) + Encrypt(e, sum, iv', b)
            && FinalIv(iv, Encrypt(e, sum, iv, a + b)) == FinalIv(iv', Encrypt(e, sum, iv', b))
  {
    EncryptSplits(e, sum, iv, a, b);
    var iv' := FinalIv(iv, Encrypt(e, sum, iv, a));
    FinalIvConcat(iv, Encrypt(e, sum, iv, a), Encrypt(e, sum, iv', b));
  }

  lemma {:induction false} DecryptConcat<B>(d: Cipher<B>, sum: Sum<B>, iv: B, a: seq<B>, b: seq<B>)
    ensures Decrypt(d, sum, iv, a + b) == Decrypt(d, sum, iv, a) + Decrypt(d, sum, FinalIv(iv, a), b)
    ensures FinalIv(iv, a + b) == FinalIv(FinalIv(iv, a), b)
    decreases |a|
  {
    if a == [] {
      assert a + b == b;
    } else {
      assert (a + b)[0] == a[0] && (a + b)[1..] == a[1..] + b;
      DecryptConcat(d, sum, a[0], a[1..], b);
    }
  }

  /** The FIPS 81 equations, block by block: each ciphertext block is the cipher of the sum
      of its plaintext block with the ciphertext block before it. */
  lemma {:induction false} EncryptAt<B>(e: Cipher<B>, sum: Sum<B>, iv: B, ps: seq<B>, i: nat)
    requires i < |ps|
    ensures var cs := Encrypt(e, sum, iv, ps);
            cs[i] == e(sum(ps[i], if i == 0 then iv else cs[i - 1]))
    decreases i
  {
    if i > 0 {
      EncryptAt(e, sum, e(sum(ps[0], iv)), ps[1..], i - 1);
    }
  }

  /** Decryption looks only at a block and the one before it. */
  lemma {:induction false} DecryptAt<B>(d: Cipher<B>, sum: Sum<B>, iv: B, cs: seq<B>, i: nat)
    requires i < |cs|
    ensures Decrypt(d, sum, iv, cs)[i] == sum(d(cs[i]), if i == 0 then iv else cs[i - 1])
    decreases i
  {
    if i > 0 {
      DecryptAt(d, sum, cs[0], cs[1..], i - 1);
    }
  }
}
