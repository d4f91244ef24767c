/** Through the transfer, the encrypted device behaves as a plain one. */
module CryptDiskRefines {
  import opened BlockCipher
  import opened CryptDisk

  datatype Request = Request(sector: nat, nsect: nat, buffer: Bytes, write: bool)

  /** The block layer never asks for 2^64 bytes or beyond, and brings a buffer that is long enough. */
  ghost predicate RequestOk(g: Config, r: Request) {
    (r.sector + r.nsect) * g.sectorSize < 0x1_0000_0000_0000_0000 && r.nsect * g.sectorSize <= |r.buffer|
  }

  lemma RequestFits(g: Config, data: Bytes, r: Request)
    requires ConfigOk(g) && |data| == Size(g) && RequestOk(g, r)
    ensures Fits(g, data, r.sector, r.nsect, r.buffer)
  {
    NoWrap(g, r.sector, r.nsect);
    NoWrapIsSound(g, r.sector, r.nsect);
  }

  // ---------- a plain device ----------

  /** A request in range writes the buffer to its sectors; one out of range does nothing. */
  ghost function PlainData(g: Config, plain: Bytes, r: Request): (p: Bytes)
    requires ConfigOk(g) && |plain| == Size(g) && RequestOk(g, r)
    ensures |p| == |plain|
  {
    if InRange(g, r.sector, r.nsect) && r.write
    then SumOfSectors(g, r.sector, r.nsect);
         Overwrite(plain, r.sector * g.sectorSize, r.buffer[..r.nsect * g.sectorSize])
    else plain
  }

  ghost function PlainBuffer(g: Config, plain: Bytes, r: Request): (b: Bytes)
    requires ConfigOk(g) && |plain| == Size(g) && RequestOk(g, r)
    ensures |b| == |r.buffer|
  {
    if InRange(g, r.sector, r.nsect) && !r.write
    then SumOfSectors(g, r.sector, r.nsect);
         Overwrite(r.buffer, 0, plain[r.sector * g.sectorSize..(r.sector + r.nsect) * g.sectorSize])
    else r.buffer
  }

  lemma SumOfSectors(g: Config, a: nat, b: nat)
    ensures a * g.sectorSize + b * g.sectorSize == (a + b) * g.sectorSize
  {
  }

  // ---------- decrypting parts ----------

  lemma DecryptThree(c: Cipher, x: Bytes, y: Bytes, z: Bytes)
    requires IsCipher(c) && Whole(|x|, c.blockSize) && Whole(|y|, c.blockSize) && Whole(|z|, c.blockSize)
    ensures Whole(|x + y + z|, c.blockSize)
    ensures DecryptAll(c, x + y + z) == DecryptAll(c, x) + DecryptAll(c, y) + DecryptAll(c, z)
  {
    BlockwiseAppend(c.decrypt, c.blockSize, x, y);
    BlockwiseAppend(c.decrypt, c.blockSize, x + y, z);
  }

  lemma OverwriteMiddle(x: Bytes, y: Bytes, z: Bytes, w: Bytes)
    requires |w| == |y|
    ensures Overwrite(x + y + z, |x|, w) == x + w + z
  {
  }

  lemma DecryptMiddle(c: Cipher, x: Bytes, y: Bytes, z: Bytes, e: Bytes)
    requires IsCipher(c) && Whole(|x|, c.blockSize) && Whole(|y|, c.blockSize) && Whole(|z|, c.blockSize) && |e| == |y|
    ensures Whole(|x + y + z|, c.blockSize) && |x + e + z| == |x + y + z|
    ensures DecryptAll(c, x + e + z) == Overwrite(DecryptAll(c, x + y + z), |x|, DecryptAll(c, e))
  {
    DecryptThree(c, x, y, z);
    DecryptThree(c, x, e, z);
    OverwriteMiddle(DecryptAll(c, x), DecryptAll(c, y), DecryptAll(c, z), DecryptAll(c, e));
  }

  lemma SliceMiddle(x: Bytes, y: Bytes, z: Bytes, end: nat)
    requires end == |x| + |y|
    ensures (x + y + z)[|x|..end] == y
  {
  }

  lemma DecryptMiddleSlice(c: Cipher, x: Bytes, y: Bytes, z: Bytes, end: nat)
    requires IsCipher(c) && Whole(|x|, c.blockSize) && Whole(|y|, c.blockSize) && Whole(|z|, c.blockSize)
    requires end == |x| + |y|
    ensures Whole(|x + y + z|, c.blockSize) && DecryptAll(c, x + y + z)[|x|..end] == DecryptAll(c, y)
  {
    DecryptThree(c, x, y, z);
    SliceMiddle(DecryptAll(c, x), DecryptAll(c, y), DecryptAll(c, z), end);
  }

  /** Before, in and after a number of whole blocks. */
  lemma WholeParts(blockSize: nat, s: Bytes, at: nat, n: nat, end: nat) returns (x: Bytes, y: Bytes, z: Bytes)
    requires blockSize > 0 && Whole(|s|, blockSize) && Whole(at, blockSize) && Whole(n, blockSize) && at + n == end <= |s|
    ensures |x| == at && |y| == n && s == x + y + z && y == s[at..end]
    ensures Whole(|x|, blockSize) && Whole(|y|, blockSize) && Whole(|z|, blockSize)
  {
    x, y, z := s[..at], s[at..end], s[end..];
    var rest := |y| + |z|;
    WholeRest(|x|, rest, |s|, blockSize);
    WholeRest(|y|, |z|, rest, blockSize);
  }

  /** Decrypting commutes with overwriting whole blocks. */
  lemma DecryptOverwrite(c: Cipher, s: Bytes, at: nat, e: Bytes)
    requires IsCipher(c) && Whole(|s|, c.blockSize) && Whole(at, c.blockSize) && Whole(|e|, c.blockSize) && at + |e| <= |s|
    ensures DecryptAll(c, Overwrite(s, at, e)) == Overwrite(DecryptAll(c, s), at, DecryptAll(c, e))
  {
    var x, y, z := WholeParts(c.blockSize, s, at, |e|, at + |e|);
    OverwriteMiddle(x, y, z, e);
    DecryptMiddle(c, x, y, z, e);
  }

  /** And with cutting out whole blocks. */
  lemma DecryptSlice(c: Cipher, s: Bytes, at: nat, n: nat, end: nat)
    requires IsCipher(c) && Whole(|s|, c.blockSize) && Whole(at, c.blockSize) && Whole(n, c.blockSize)
    requires at + n == end <= |s|
    ensures Whole(|s[at..end]|, c.blockSize) && DecryptAll(c, s)[at..end] == DecryptAll(c, s[at..end])
  {
    var x, y, z := WholeParts(c.blockSize, s, at, n, end);
    DecryptMiddleSlice(c, x, y, z, end);
  }

  // ---------- one request, and every sequence of them ----------

  lemma SizeIsWhole(g: Config)
    requires ConfigOk(g)
    ensures Whole(Size(g), g.cipher.blockSize)
  {
    WholeTimes(g.sectors, g.sectorSize, g.cipher.blockSize);
  }

  /** What the device holds, decrypted. */
  ghost function Plain(g: Config, data: Bytes): (p: Bytes)
    requires ConfigOk(g) && |data| == Size(g)
    ensures |p| == |data|
  {
    SizeIsWhole(g);
    DecryptAll(g.cipher, data)
  }

  ghost function CryptData(g: Config, data: Bytes, r: Request): (d: Bytes)
    requires ConfigOk(g) && |data| == Size(g) && RequestOk(g, r)
    ensures |d| == |data|
  {
    RequestFits(g, data, r);
    DataAfter(g, data, r.sector, r.nsect, r.buffer, r.write)
  }

  ghost function CryptBuffer(g: Config, data: Bytes, r: Request): Bytes
    requires ConfigOk(g) && |data| == Size(g) && RequestOk(g, r)
  {
    RequestFits(g, data, r);
    BufferAfter(g, data, r.sector, r.nsect, r.buffer, r.write)
  }

  /** The request in bytes: where it starts, how long it is and where it ends. */
  lemma Extent(g: Config, r: Request) returns (at: nat, n: nat, end: nat)
    requires ConfigOk(g) && RequestOk(g, r)
    ensures Passes(g, r.sector, r.nsect) <==> InRange(g, r.sector, r.nsect)
    ensures at == InBytes(g, r.sector) == r.sector * g.sectorSize && n == InBytes(g, r.nsect) == r.nsect * g.sectorSize
    ensures at + n == end == (r.sector + r.nsect) * g.sectorSize && n <= |r.buffer|
    ensures Whole(at, g.cipher.blockSize) && Whole(n, g.cipher.blockSize)
  {
    NoWrap(g, r.sector, r.nsect);
    TestIsRight(g, r.sector, r.nsect);
    WholeTimes(r.sector, g.sectorSize, g.cipher.blockSize);
    WholeTimes(r.nsect, g.sectorSize, g.cipher.blockSize);
    at, n, end := r.sector * g.sectorSize, r.nsect * g.sectorSize, (r.sector + r.nsect) * g.sectorSize;
  }

  /** A write changes the plain content of the device as it would change a plain device. */
  lemma WriteIsPlain(g: Config, data: Bytes, r: Request)
    requires ConfigOk(g) && |data| == Size(g) && RequestOk(g, r)
    ensures Plain(g, CryptData(g, data, r)) == PlainData(g, Plain(g, data), r)
  {
    RequestFits(g, data, r);
    var at, n, end := Extent(g, r);
    if InRange(g, r.sector, r.nsect) && r.write {
      SizeIsWhole(g);
      DecryptOverwrite(g.cipher, data, at, EncryptAll(g.cipher, r.buffer[..n]));
      DecryptEncrypt(g.cipher, r.buffer[..n]);
    }
  }

  lemma BufferAfterRead(g: Config, data: Bytes, sector: nat, nsect: nat, buffer: Bytes, at: nat, end: nat)
    requires Fits(g, data, sector, nsect, buffer) && Passes(g, sector, nsect)
    requires at == InBytes(g, sector) && end == InBytes(g, sector) + InBytes(g, nsect)
    ensures BufferAfter(g, data, sector, nsect, buffer, false) == Overwrite(buffer, 0, DecryptAll(g.cipher, data[at..end]))
  {
  }

  lemma ReadBrings(g: Config, data: Bytes, r: Request, at: nat, n: nat, end: nat)
    requires ConfigOk(g) && |data| == Size(g) && RequestOk(g, r) && InRange(g, r.sector, r.nsect) && !r.write
    requires Passes(g, r.sector, r.nsect) && at == InBytes(g, r.sector) && n == InBytes(g, r.nsect)
    requires n <= |r.buffer| && at + n == end <= |data| && Whole(n, g.cipher.blockSize)
    ensures CryptBuffer(g, data, r) == Overwrite(r.buffer, 0, DecryptAll(g.cipher, data[at..end]))
  {
    RequestFits(g, data, r);
    BufferAfterRead(g, data, r.sector, r.nsect, r.buffer, at, end);
  }

  lemma PlainReadBrings(g: Config, plain: Bytes, r: Request, at: nat, n: nat, end: nat)
    requires ConfigOk(g) && |plain| == Size(g) && RequestOk(g, r) && InRange(g, r.sector, r.nsect) && !r.write
    requires at == r.sector * g.sectorSize && at + n == end == (r.sector + r.nsect) * g.sectorSize
    requires n <= |r.buffer| && end <= |plain|
    ensures PlainBuffer(g, plain, r) == Overwrite(r.buffer, 0, plain[at..end])
  {
  }

  lemma ReadInRange(g: Config, data: Bytes, r: Request)
    requires ConfigOk(g) && |data| == Size(g) && RequestOk(g, r) && InRange(g, r.sector, r.nsect) && !r.write
    ensures CryptBuffer(g, data, r) == PlainBuffer(g, Plain(g, data), r)
  {
    var at, n, end := Extent(g, r);
    SizeIsWhole(g);
    ReadBrings(g, data, r, at, n, end);
    PlainReadBrings(g, Plain(g, data), r, at, n, end);
    DecryptSlice(g.cipher, data, at, n, end);
  }

  /** A read brings what a plain device would bring. */
  lemma ReadIsPlain(g: Config, data: Bytes, r: Request)
    requires ConfigOk(g) && |data| == Size(g) && RequestOk(g, r)
    ensures CryptBuffer(g, data, r) == PlainBuffer(g, Plain(g, data), r)
  {
    if InRange(g, r.sector, r.nsect) && !r.write {
      ReadInRange(g, data, r);
    } else {
      var at, n, end := Extent(g, r);
    }
  }

  /** A byte changes only if it lies in the sectors of a write in range. */
  lemma OthersUntouched(g: Config, data: Bytes, r: Request, i: nat)
    requires ConfigOk(g) && |data| == Size(g) && RequestOk(g, r) && i < |data|
    ensures CryptData(g, data, r)[i] != data[i] ==>
      r.write && InRange(g, r.sector, r.nsect) && r.sector * g.sectorSize <= i < (r.sector + r.nsect) * g.sectorSize
    ensures !InRange(g, r.sector, r.nsect) ==> CryptData(g, data, r) == data && CryptBuffer(g, data, r) == r.buffer
  {
    var at, n, end := Extent(g, r);
  }

  /** The buffers that come back from a sequence of requests. */
  ghost function CryptRun(g: Config, data: Bytes, requests: seq<Request>): seq<Bytes>
    requires ConfigOk(g) && |data| == Size(g) && forall i :: 0 <= i < |requests| ==> RequestOk(g, requests[i])
    decreases |requests|
  {
    if requests == [] then []
    else [CryptBuffer(g, data, requests[0])] + CryptRun(g, CryptData(g, data, requests[0]), requests[1..])
  }

  ghost function PlainRun(g: Config, plain: Bytes, requests: seq<Request>): seq<Bytes>
    requires ConfigOk(g) && |plain| == Size(g) && forall i :: 0 <= i < |requests| ==> RequestOk(g, requests[i])
    decreases |requests|
  {
    if requests == [] then []
    else [PlainBuffer(g, plain, requests[0])] + PlainRun(g, PlainData(g, plain, requests[0]), requests[1..])
  }

  /** Every sequence of requests brings back from the encrypted device what it would from a plain one. */
  lemma {:induction false} SameAsPlain(g: Config, data: Bytes, requests: seq<Request>)
    requires ConfigOk(g) && |data| == Size(g) && forall i :: 0 <= i < |requests| ==> RequestOk(g, requests[i])
    ensures CryptRun(g, data, requests) == PlainRun(g, Plain(g, data), requests)
    decreases |requests|
  {
    if requests != [] {
      ReadIsPlain(g, data, requests[0]);
      WriteIsPlain(g, data, requests[0]);
      SameAsPlain(g, CryptData(g, data, requests[0]), requests[1..]);
    }
  }
}
