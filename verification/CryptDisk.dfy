/** The encrypted block device: sbd_crypt_transfer between the data of the device and a buffer. */
module CryptDisk {
  import opened BlockCipher

  /** unsigned long wraps at 2^64. */
  const WORD: nat := 0x1_0000_0000_0000_0000

  /** The size of a sector in bytes is a number of whole cipher blocks, and so is that of the device,
      which is a C int. */
  datatype Config = Config(sectorSize: nat, sectors: nat, cipher: Cipher)

  ghost predicate ConfigOk(g: Config) {
    && IsCipher(g.cipher)
    && g.sectorSize > 0 && Whole(g.sectorSize, g.cipher.blockSize)
    && g.sectors * g.sectorSize < 0x8000_0000
  }

  function Size(g: Config): nat { g.sectors * g.sectorSize }

  /** So many sectors in bytes, as an unsigned long. */
  function InBytes(g: Config, sectors: nat): nat { (sectors * g.sectorSize) % WORD }

  /** The test of sbd_crypt_transfer, whose sum wraps. */
  predicate Passes(g: Config, sector: nat, nsect: nat) {
    (InBytes(g, sector) + InBytes(g, nsect)) % WORD <= Size(g)
  }

  /** What it should test. */
  predicate InRange(g: Config, sector: nat, nsect: nat) { (sector + nsect) * g.sectorSize <= Size(g) }

  lemma SumWraps(a: nat, b: nat)
    ensures (a % WORD + b % WORD) % WORD == (a + b) % WORD
  {
  }

  lemma BytesOfSum(g: Config, sector: nat, nsect: nat)
    ensures (InBytes(g, sector) + InBytes(g, nsect)) % WORD == ((sector + nsect) * g.sectorSize) % WORD
  {
    SumWraps(sector * g.sectorSize, nsect * g.sectorSize);
    assert sector * g.sectorSize + nsect * g.sectorSize == (sector + nsect) * g.sectorSize;
  }

  /** The test is right about a request exactly when the end of the request does not wrap, or wraps to
      beyond the end of the device. */
  lemma TestIsRight(g: Config, sector: nat, nsect: nat)
    requires ConfigOk(g)
    ensures (Passes(g, sector, nsect) <==> InRange(g, sector, nsect)) <==>
            (var end := (sector + nsect) * g.sectorSize;
             end < 0x1_0000_0000_0000_0000 || end % 0x1_0000_0000_0000_0000 > Size(g))
  {
    BytesOfSum(g, sector, nsect);
    WrapTest((sector + nsect) * g.sectorSize, Size(g));
  }

  lemma WrapTest(end: nat, size: nat)
    requires size < 0x8000_0000
    ensures (end % WORD <= size <==> end <= size) <==> end < WORD || end % WORD > size
  {
  }

  /** A request far past the end of any device passes the test. */
  lemma TestIsWrong(g: Config)
    requires ConfigOk(g) && g.sectorSize == 512 && g.sectors == 1024
    ensures Passes(g, 0x80_0000_0000_0000, 1) && !InRange(g, 0x80_0000_0000_0000, 1)
  {
  }

  lemma NoWrap(g: Config, sector: nat, nsect: nat)
    requires ConfigOk(g) && (sector + nsect) * g.sectorSize < WORD
    ensures InBytes(g, sector) == sector * g.sectorSize && InBytes(g, nsect) == nsect * g.sectorSize
    ensures sector * g.sectorSize + nsect * g.sectorSize == (sector + nsect) * g.sectorSize
  {
    assert sector * g.sectorSize + nsect * g.sectorSize == (sector + nsect) * g.sectorSize;
  }

  // ---------- the transfer ----------

  /** The bytes from `at` on replaced. */
  ghost function Overwrite(s: Bytes, at: nat, new_: Bytes): (r: Bytes)
    requires at + |new_| <= |s|
    ensures |r| == |s|
  {
    s[..at] + new_ + s[at + |new_|..]
  }

  /** A request the transfer refuses or carries out inside the device, on whole blocks. */
  ghost predicate Sound(g: Config, sector: nat, nsect: nat)
    requires ConfigOk(g)
  {
    Passes(g, sector, nsect) ==>
      InBytes(g, sector) + InBytes(g, nsect) <= Size(g) && Whole(InBytes(g, nsect), g.cipher.blockSize)
  }

  lemma NoWrapIsSound(g: Config, sector: nat, nsect: nat)
    requires ConfigOk(g) && (sector + nsect) * g.sectorSize < WORD
    ensures Sound(g, sector, nsect)
  {
    NoWrap(g, sector, nsect);
    assert InBytes(g, sector) + InBytes(g, nsect) < WORD;
    WholeTimes(nsect, g.sectorSize, g.cipher.blockSize);
  }

  /** One block further. */
  lemma OverwriteMore(s: Bytes, at: nat, f: Bytes -> Bytes, n: nat, done: Bytes, block: Bytes)
    requires OnBlocks(f, n) && Whole(|done|, n) && |block| == n && at + |done| + n <= |s|
    ensures Whole(|done + block|, n)
    ensures Overwrite(Overwrite(s, at, Blockwise(f, n, done)), at + |done|, f(block))
            == Overwrite(s, at, Blockwise(f, n, done + block))
  {
    BlockwiseOne(f, n, block);
    BlockwiseAppend(f, n, done, block);
  }

  /** crypto_cipher_encrypt_one and crypto_cipher_decrypt_one */
  method CryptOne(f: Bytes -> Bytes, n: nat, dst: array<bv8>, to: nat, src: array<bv8>, from: nat, ghost block: Bytes)
    requires OnBlocks(f, n) && dst != src && to + n <= dst.Length && from + n <= src.Length
    requires src[from..from + n] == block
    modifies dst
    ensures dst[..] == Overwrite(old(dst[..]), to, f(block))
  {
    var out := f(src[from..from + n]);
    forall k | 0 <= k < n {
      dst[to + k] := out[k];
    }
    assert dst[..] == Overwrite(old(dst[..]), to, out);
  }

  /** The destination with the first i bytes of the source converted. */
  ghost predicate Converted(now: Bytes, was: Bytes, to: nat, f: Bytes -> Bytes, n: nat, source: Bytes, i: nat) {
    && OnBlocks(f, n) && i <= |source| && to + |source| <= |was| && Whole(i, n)
    && now == Overwrite(was, to, Blockwise(f, n, source[..i]))
  }

  lemma ConvertedNext(was: Bytes, to: nat, f: Bytes -> Bytes, n: nat, source: Bytes, i: nat, now: Bytes)
    requires Converted(now, was, to, f, n, source, i) && i + n <= |source|
    ensures Converted(Overwrite(now, to + i, f(source[i..i + n])), was, to, f, n, source, i + n)
  {
    OverwriteMore(was, to, f, n, source[..i], source[i..i + n]);
    assert source[..i] + source[i..i + n] == source[..i + n];
  }

  lemma SliceOfSlice(s: Bytes, from: nat, m: nat, i: nat, n: nat)
    requires from + m <= |s| && i + n <= m
    ensures s[from..from + m][i..i + n] == s[from + i..from + i + n]
  {
    var slice := s[from..from + m];
    var x, y := slice[i..i + n], s[from + i..from + i + n];
    forall k | 0 <= k < n ensures x[k] == y[k] {
      assert x[k] == slice[i + k] == s[from + (i + k)];
    }
    assert x == y;
  }

  /** The body of the loops of the transfer. */
  method CryptNext(f: Bytes -> Bytes, n: nat, dst: array<bv8>, to: nat, src: array<bv8>, from: nat, i: nat,
                   ghost was: Bytes, ghost source: Bytes)
    requires dst != src && from + |source| <= src.Length && src[from..from + |source|] == source
    requires |was| == dst.Length && Converted(dst[..], was, to, f, n, source, i) && i + n <= |source|
    modifies dst
    ensures Converted(dst[..], was, to, f, n, source, i + n)
  {
    ghost var now, block := dst[..], source[i..i + n];
    ConvertedNext(was, to, f, n, source, i, now);
    assert src[from + i..from + i + n] == block by { SliceOfSlice(src[..], from, |source|, i, n); }
    CryptOne(f, n, dst, to + i, src, from + i, block);
  }

  /** The loops of the transfer, over a whole number of blocks. */
  method CryptBlocks(f: Bytes -> Bytes, n: nat, dst: array<bv8>, to: nat, src: array<bv8>, from: nat, nbytes: nat)
    requires OnBlocks(f, n) && Whole(nbytes, n) && dst != src && to + nbytes <= dst.Length && from + nbytes <= src.Length
    modifies dst
    ensures dst[..] == Overwrite(old(dst[..]), to, Blockwise(f, n, old(src[from..from + nbytes])))
  {
    ghost var was, source := dst[..], src[from..from + nbytes];
    var i := 0;
    assert source[..0] == [];
    while i < nbytes
      invariant 0 <= i <= nbytes && Whole(nbytes - i, n)
      invariant src[from..from + nbytes] == source
      invariant Converted(dst[..], was, to, f, n, source, i)
    {
      CryptNext(f, n, dst, to, src, from, i, was, source);
      i := i + n;
    }
    assert source[..i] == source;
  }

  class Device {
    const g: Config
    const data: array<bv8>

    ghost predicate Valid()
      reads this
    {
      ConfigOk(g) && data.Length == Size(g)
    }

    constructor (g: Config)
      requires ConfigOk(g)
      ensures Valid() && this.g == g && fresh(data)
    {
      this.g := g;
      this.data := new bv8[g.sectors * g.sectorSize](_ => 0);
    }

    /** sbd_crypt_transfer */
    method Transfer(sector: nat, nsect: nat, buffer: array<bv8>, write: bool)
      requires Valid() && Sound(g, sector, nsect) && buffer != data
      requires Passes(g, sector, nsect) ==> InBytes(g, nsect) <= buffer.Length
      modifies data, buffer
      ensures data[..] == DataAfter(g, old(data[..]), sector, nsect, old(buffer[..]), write)
      ensures buffer[..] == BufferAfter(g, old(data[..]), sector, nsect, old(buffer[..]), write)
    {
      var offset := InBytes(g, sector);
      var nbytes := InBytes(g, nsect);
      if (offset + nbytes) % WORD > Size(g) {
        return;
      }
      if write {
        CryptBlocks(g.cipher.encrypt, g.cipher.blockSize, data, offset, buffer, 0, nbytes);
      } else {
        CryptBlocks(g.cipher.decrypt, g.cipher.blockSize, buffer, 0, data, offset, nbytes);
      }
    }
  }

  /** A request fits the device and the buffer. */
  ghost predicate Fits(g: Config, data: Bytes, sector: nat, nsect: nat, buffer: Bytes) {
    && ConfigOk(g) && |data| == Size(g) && Sound(g, sector, nsect)
    && (Passes(g, sector, nsect) ==> InBytes(g, nsect) <= |buffer|)
  }

  ghost function DataAfter(g: Config, data: Bytes, sector: nat, nsect: nat, buffer: Bytes, write: bool): (r: Bytes)
    requires Fits(g, data, sector, nsect, buffer)
    ensures |r| == |data|
  {
    if Passes(g, sector, nsect) && write
    then Overwrite(data, InBytes(g, sector), EncryptAll(g.cipher, buffer[..InBytes(g, nsect)]))
    else data
  }

  ghost function BufferAfter(g: Config, data: Bytes, sector: nat, nsect: nat, buffer: Bytes, write: bool): (r: Bytes)
    requires Fits(g, data, sector, nsect, buffer)
    ensures |r| == |buffer|
  {
    if Passes(g, sector, nsect) && !write
    then Overwrite(buffer, 0, DecryptAll(g.cipher, data[InBytes(g, sector)..InBytes(g, sector) + InBytes(g, nsect)]))
    else buffer
  }
}
