/** A block cipher applied to whole buffers, block by block. */
module BlockCipher {
  type Bytes = seq<bv8>

  datatype Cipher = Cipher(blockSize: nat, encrypt: Bytes -> Bytes, decrypt: Bytes -> Bytes)

  /** The function takes blocks of n bytes to blocks of n bytes. */
  ghost predicate OnBlocks(f: Bytes -> Bytes, n: nat) {
    n > 0 && forall b :: |b| == n ==> |f(b)| == n
  }

  /** Decrypting a block undoes encrypting it. */
  ghost predicate IsCipher(c: Cipher) {
    && OnBlocks(c.encrypt, c.blockSize) && OnBlocks(c.decrypt, c.blockSize)
    && forall b :: |b| == c.blockSize ==> c.decrypt(c.encrypt(b)) == b
  }

  /** So many bytes are a number of whole blocks. */
  ghost predicate Whole(n: nat, blockSize: nat)
    requires blockSize > 0
  {
    n == 0 || (n >= blockSize && Whole(n - blockSize, blockSize))
  }

  lemma {:induction false} WholeSum(a: nat, b: nat, blockSize: nat)
    requires blockSize > 0 && Whole(a, blockSize) && Whole(b, blockSize)
    ensures Whole(a + b, blockSize)
  {
    if a > 0 { WholeSum(a - blockSize, b, blockSize); }
  }

  lemma {:induction false} WholeTimes(k: nat, a: nat, blockSize: nat)
    requires blockSize > 0 && Whole(a, blockSize)
    ensures Whole(k * a, blockSize)
  {
    if k > 0 {
      WholeTimes(k - 1, a, blockSize);
      WholeSum((k - 1) * a, a, blockSize);
      assert (k - 1) * a + a == k * a;
    }
  }

  lemma {:induction false} WholeRest(a: nat, b: nat, total: nat, blockSize: nat)
    requires blockSize > 0 && Whole(a, blockSize) && Whole(total, blockSize) && total == a + b
    ensures Whole(b, blockSize)
  {
    if a > 0 { WholeRest(a - blockSize, b, total - blockSize, blockSize); }
  }

  // ---------- whole buffers ----------

  /** The function applied to each block in turn. */
  ghost function Blockwise(f: Bytes -> Bytes, n: nat, s: Bytes): (r: Bytes)
    requires OnBlocks(f, n) && Whole(|s|, n)
    ensures |r| == |s|
    decreases |s|
  {
    if s == [] then [] else f(s[..n]) + Blockwise(f, n, s[n..])
  }

  lemma BlockwiseFirst(f: Bytes -> Bytes, n: nat, first: Bytes, rest: Bytes)
    requires OnBlocks(f, n) && |first| == n && Whole(|rest|, n)
    ensures Whole(|first + rest|, n) && Blockwise(f, n, first + rest) == f(first) + Blockwise(f, n, rest)
  {
    assert (first + rest)[..n] == first && (first + rest)[n..] == rest;
  }

  lemma {:induction false} BlockwiseAppend(f: Bytes -> Bytes, n: nat, a: Bytes, b: Bytes)
    requires OnBlocks(f, n) && Whole(|a|, n) && Whole(|b|, n)
    ensures Whole(|a + b|, n) && Blockwise(f, n, a + b) == Blockwise(f, n, a) + Blockwise(f, n, b)
    decreases |a|
  {
    if a == [] {
      assert a + b == b;
    } else {
      var first, rest := a[..n], a[n..];
      BlockwiseAppend(f, n, rest, b);
      BlockwiseFirst(f, n, first, rest + b);
      assert a + b == first + (rest + b);
    }
  }

  lemma BlockwiseOne(f: Bytes -> Bytes, n: nat, b: Bytes)
    requires OnBlocks(f, n) && |b| == n
    ensures Whole(|b|, n) && Blockwise(f, n, b) == f(b)
  {
    assert b[..n] == b && b[n..] == [];
  }

  ghost function EncryptAll(c: Cipher, s: Bytes): (r: Bytes)
    requires IsCipher(c) && Whole(|s|, c.blockSize)
    ensures |r| == |s|
  {
    Blockwise(c.encrypt, c.blockSize, s)
  }

  ghost function DecryptAll(c: Cipher, s: Bytes): (r: Bytes)
    requires IsCipher(c) && Whole(|s|, c.blockSize)
    ensures |r| == |s|
  {
    Blockwise(c.decrypt, c.blockSize, s)
  }

  /** Decrypting a buffer undoes encrypting it. */
  lemma {:induction false} DecryptEncrypt(c: Cipher, s: Bytes)
    requires IsCipher(c) && Whole(|s|, c.blockSize)
    ensures DecryptAll(c, EncryptAll(c, s)) == s
    decreases |s|
  {
    if s != [] {
      var first, rest := s[..c.blockSize], s[c.blockSize..];
      DecryptEncrypt(c, rest);
      BlockwiseFirst(c.decrypt, c.blockSize, c.encrypt(first), EncryptAll(c, rest));
      assert s == first + rest;
    }
  }
}
