/** kmalloc and kfree, which keep the requested size in front of each block, and the cache entry
    points, on top of the slob allocator. Each method of class Kmem is one step under slob_lock. */
module Kmalloc {
  import opened Options
  import opened FreeList
  import opened SlobEncoding
  import opened SlobSizes
  import opened SlobPage
  import opened SlobPageState
  import opened SlobHeap
  import S = SlobState
  import I = SlobInvariant
  import A = SlobAccounts
  import R = SlobRuns
  import opened Sums

  // ---------- the size header ----------

  /** A unit read as an unsigned 16-bit half. */
  function Half(c: SlobIdx): nat {
    if c < 0 then c + 0x1_0000 else c
  }

  /** An unsigned 16-bit half stored in a unit. */
  function Unit(n: nat): SlobIdx
    requires n < 0x1_0000
  {
    if n < 0x8000 then n else n - 0x1_0000
  }

  /** *m for an unsigned int that takes two units, low half first. */
  function ReadSize(cells: seq<SlobIdx>, off: nat): nat
    requires off + 1 < |cells|
  {
    Half(cells[off]) + 0x1_0000 * Half(cells[off + 1])
  }

  /** *m = size */
  function WriteSize(cells: seq<SlobIdx>, off: nat, size: nat): seq<SlobIdx>
    requires off + 1 < |cells| && size < 0x1_0000_0000
  {
    cells[off := Unit(size % 0x1_0000)][off + 1 := Unit(size / 0x1_0000)]
  }

  lemma SizeRoundTrip(cells: seq<SlobIdx>, off: nat, size: nat)
    requires off + 1 < |cells| && size < 0x1_0000_0000
    ensures ReadSize(WriteSize(cells, off, size), off) == size
  {
  }

  /** Writing units that are not free leaves the page's free list as it is. */
  lemma WriteKeepsImage(im: PageImage, free: seq<Block>, cells: seq<SlobIdx>)
    requires ImageOk(im, free) && |cells| == |im.cells|
    requires forall u :: 0 <= u < |cells| && Covers(free, u) ==> cells[u] == im.cells[u]
    ensures ImageOk(im.(cells := cells), free)
  {
    SpacedIsCanonical(free, |cells|);
    DecodedListStored(im.cells, im.freelist);
    StoresFrame(im.cells, cells, free, |cells|);
    StoredListDecodes(cells, free);
  }

  /** The block at q holds `size` in front, and is as large as that takes. */
  ghost predicate HeaderAt(images: map<nat, PageImage>, h: S.Heap, q: S.Pointer, size: nat, align: nat) {
    && I.IsLive(h, q) && I.SizeAt(h, q) == size + align
    && q.page in images && q.off + 1 < |images[q.page].cells|
    && ReadSize(images[q.page].cells, q.off) == size
  }

  /** Every kmalloc block has its requested size in front, at the start of its slob block. */
  ghost predicate Headers(images: map<nat, PageImage>, h: S.Heap, sizes: map<S.Pointer, nat>, align: nat) {
    forall q :: q in sizes ==> HeaderAt(images, h, q, sizes[q], align)
  }

  /** The two header units of a live block are not free. */
  lemma HeaderInUse(h: S.Heap, units: nat, q: S.Pointer)
    requires I.PagesOk(h.pages, units) && I.IsLive(h, q) && I.SizeAt(h, q) >= 3
    ensures q.off + 1 < units
    ensures !Covers(h.pages[q.page].free, q.off) && !Covers(h.pages[q.page].free, q.off + 1)
  {
    LiveIsOutside(h.pages[q.page], units, q.off);
  }

  ghost predicate HeaderUnitsUsed(pages: map<nat, PageState>, sizes: map<S.Pointer, nat>) {
    forall q :: q in sizes ==>
      q.page in pages && !Covers(pages[q.page].free, q.off) && !Covers(pages[q.page].free, q.off + 1)
  }

  lemma HeadersInUse(h: S.Heap, units: nat, sizes: map<S.Pointer, nat>, align: nat)
    requires I.PagesOk(h.pages, units) && align >= 4
    requires forall q :: q in sizes ==> I.IsLive(h, q) && I.SizeAt(h, q) == sizes[q] + align
    ensures HeaderUnitsUsed(h.pages, sizes)
  {
    forall q | q in sizes
      ensures q.page in h.pages && !Covers(h.pages[q.page].free, q.off) && !Covers(h.pages[q.page].free, q.off + 1)
    {
      HeaderInUse(h, units, q);
    }
  }

  /** Headers survive a step that writes no unit in use and ends none of their blocks. */
  lemma HeadersKept(images: map<nat, PageImage>, images': map<nat, PageImage>, pages: map<nat, PageState>,
                    h: S.Heap, h': S.Heap, sizes: map<S.Pointer, nat>, align: nat)
    requires Headers(images, h, sizes, align) && KeepsUsed(images, images', pages) && HeaderUnitsUsed(pages, sizes)
    requires forall q :: q in sizes ==> I.IsLive(h', q) && I.SizeAt(h', q) == I.SizeAt(h, q)
    ensures Headers(images', h', sizes, align)
  {
    forall q | q in sizes ensures HeaderAt(images', h', q, sizes[q], align) {
      assert HeaderAt(images, h, q, sizes[q], align);
    }
  }

  /** What kmalloc returns: NULL, ZERO_SIZE_PTR, an address in a slob page, or whole pages from
      the page allocator. */
  datatype Address = Null | ZeroSize | InSlob(at: S.Pointer) | WholePages

  /** The bytes a kmalloc block takes, header included. */
  function WithHeader(size: nat, align: nat): nat { size + align }

  /** The alignment in units, which is also the distance from header to payload. */
  function AlignUnits(align: nat): (n: nat)
    ensures align % 2 == 0 ==> 2 * n == align
  {
    align / 2
  }

  /** The start of the slob block whose payload is at `at`, and back. */
  function BlockOf(at: S.Pointer, align: nat): (q: S.Pointer)
    requires at.off >= AlignUnits(align)
    ensures q.page == at.page && (align % 2 == 0 ==> 2 * (at.off - q.off) == align)
  {
    S.Pointer(at.page, at.off - AlignUnits(align))
  }

  function PayloadOf(q: S.Pointer, align: nat): (at: S.Pointer)
    ensures q.page == at.page && (align % 2 == 0 ==> 2 * (at.off - q.off) == align)
  {
    S.Pointer(q.page, q.off + AlignUnits(align))
  }

  // ---------- kmalloc and kfree on the globals ----------

  /** Everything the allocator keeps between calls. */
  ghost predicate Ok(g: Globals, h: S.Heap, units: nat, sizes: map<S.Pointer, nat>, align: nat) {
    Represents(g, h, units) && I.Inv(h, units) && Headers(g.images, h, sizes, align)
  }

  /** slob_alloc keeps all headers. */
  method AllocKeeps(g: Globals, size: nat, slobAlign: nat, grant: Option<nat>, contents: seq<SlobIdx>,
                    ghost h: S.Heap, ghost sizes: map<S.Pointer, nat>, ghost align: nat)
    returns (g': Globals, r: Option<S.Pointer>, ghost h': S.Heap)
    requires Ok(g, h, |contents|, sizes, align) && I.MayAlloc(h, |contents|, size, grant) && align >= 4
    ensures Ok(g', h', |contents|, sizes, align) && KeepsUsed(g.images, g'.images, h.pages)
    ensures h' == S.Alloc(h, |contents|, size, slobAlign, grant).0
    ensures r == S.Alloc(h, |contents|, size, slobAlign, grant).1
    ensures r.Some? ==> r.value !in sizes && I.IsLive(h', r.value) && I.SizeAt(h', r.value) == size
  {
    g', r, h' := AllocBlock(g, size, slobAlign, grant, contents, h);
    I.AllocEffect(h, |contents|, size, slobAlign, grant);
    if r.Some? {
      NotAHeader(g.images, h, sizes, align, r.value);
    }
    HeadersInUse(h, |contents|, sizes, align);
    HeadersKept(g.images, g'.images, h.pages, h, h', sizes, align);
  }

  /** slob_free keeps the headers of all other blocks. */
  method FreeKeeps(g: Globals, q: S.Pointer, size: nat, ghost h: S.Heap, units: nat,
                   ghost sizes: map<S.Pointer, nat>, ghost align: nat)
    returns (g': Globals, ghost h': S.Heap)
    requires Ok(g, h, units, sizes, align) && I.IsLive(h, q) && size == I.SizeAt(h, q) && align >= 4
    ensures Ok(g', h', units, sizes - {q}, align) && KeepsUsed(g.images, g'.images, h'.pages)
    ensures h' == S.Free(h, units, q.page, q.off)
  {
    ghost var rest := sizes - {q};
    g', h' := FreeBlock(g, q.page, q.off, size, h, units);
    I.FreeEffect(h, units, q.page, q.off);
    HeadersInUse(h', units, rest, align);
    HeadersKept(g.images, g'.images, h'.pages, h, h', rest, align);
  }

  /** Of all units of all pages, only those of page p from lo to hi may differ. */
  ghost predicate WritesOnly(images: map<nat, PageImage>, images': map<nat, PageImage>, p: nat, lo: nat, hi: nat) {
    forall r :: r in images ==>
      && r in images' && |images'[r].cells| == |images[r].cells|
      && forall u :: 0 <= u < |images[r].cells| && !(r == p && lo <= u < hi) ==> images'[r].cells[u] == images[r].cells[u]
  }

  /** *m = size in the block at q. */
  method PutHeader(g: Globals, q: S.Pointer, size: nat, ghost h: S.Heap, ghost units: nat,
                   ghost sizes: map<S.Pointer, nat>, ghost align: nat)
    returns (g': Globals)
    requires Ok(g, h, units, sizes, align) && align >= 4 && size < 0x1_0000
    requires I.IsLive(h, q) && I.SizeAt(h, q) == size + align && q !in sizes
    ensures Ok(g', h, units, sizes[q := size], align) && WritesOnly(g.images, g'.images, q.page, q.off, q.off + 2)
  {
    assert Stored(g.images[q.page], h.pages[q.page], units);
    HeaderInUse(h, units, q);
    var im := g.images[q.page];
    g' := g.(images := g.images[q.page := im.(cells := WriteSize(im.cells, q.off, size))]);
    HeaderStored(g, h, units, q, size);
    OtherHeaders(g.images, h, units, sizes, align, q, size);
    HeaderWrites(g.images, q.page, q.off, size);
  }

  lemma HeaderWrites(images: map<nat, PageImage>, p: nat, off: nat, size: nat)
    requires p in images && off + 1 < |images[p].cells| && size < 0x1_0000
    ensures var im := images[p];
      WritesOnly(images, images[p := im.(cells := WriteSize(im.cells, off, size))], p, off, off + 2)
  {
  }

  /** A header write leaves the free lists as they are. */
  lemma HeaderStored(g: Globals, h: S.Heap, units: nat, q: S.Pointer, size: nat)
    requires Represents(g, h, units) && q.page in h.pages && q.off + 1 < units && size < 0x1_0000
    requires |g.images[q.page].cells| == units
    requires !Covers(h.pages[q.page].free, q.off) && !Covers(h.pages[q.page].free, q.off + 1)
    ensures var im := g.images[q.page];
      Represents(g.(images := g.images[q.page := im.(cells := WriteSize(im.cells, q.off, size))]), h, units)
  {
    var im, page := g.images[q.page], h.pages[q.page];
    assert Stored(im, page, units);
    var im' := im.(cells := WriteSize(im.cells, q.off, size));
    WriteKeepsImage(im, page.free, im'.cells);
    StoredUpdate(g.images, h.pages, units, q.page, im', page);
    assert h.pages[q.page := page] == h.pages;
  }

  /** Two live blocks on a page have separate headers. */
  lemma BlocksApart(page: PageState, units: nat, d: nat, o: nat)
    requires PageOk(page, units) && d in page.live && o in page.live && d != o
    requires page.live[d] >= 3 && page.live[o] >= 3
    ensures d + 1 < o || o + 1 < d
  {
  }

  lemma WriteMisses(cells: seq<SlobIdx>, off: nat, size: nat, d: nat)
    requires off + 1 < |cells| && d + 1 < |cells| && size < 0x1_0000_0000 && (d + 1 < off || off + 1 < d)
    ensures ReadSize(WriteSize(cells, off, size), d) == ReadSize(cells, d)
  {
  }

  /** A header write makes one header and touches no other. */
  lemma OtherHeaders(images: map<nat, PageImage>, h: S.Heap, units: nat, sizes: map<S.Pointer, nat>, align: nat,
                     q: S.Pointer, size: nat)
    requires I.PagesOk(h.pages, units) && Headers(images, h, sizes, align) && align >= 4 && size < 0x1_0000
    requires I.IsLive(h, q) && I.SizeAt(h, q) == size + align && q !in sizes
    requires q.page in images && q.off + 1 < |images[q.page].cells|
    ensures var im := images[q.page];
      Headers(images[q.page := im.(cells := WriteSize(im.cells, q.off, size))], h, sizes[q := size], align)
  {
    var im := images[q.page];
    var images' := images[q.page := im.(cells := WriteSize(im.cells, q.off, size))];
    SizeRoundTrip(im.cells, q.off, size);
    forall d | d in sizes ensures HeaderAt(images', h, d, sizes[d], align) {
      HeaderStays(images, h, units, align, q, size, d, sizes[d]);
    }
  }

  lemma HeaderFrom(images: map<nat, PageImage>, images': map<nat, PageImage>, h: S.Heap, d: S.Pointer, n: nat, align: nat)
    requires HeaderAt(images, h, d, n, align)
    requires d.page in images' && |images'[d.page].cells| == |images[d.page].cells|
    requires ReadSize(images'[d.page].cells, d.off) == ReadSize(images[d.page].cells, d.off)
    ensures HeaderAt(images', h, d, n, align)
  {
  }

  lemma HeaderStays(images: map<nat, PageImage>, h: S.Heap, units: nat, align: nat,
                    q: S.Pointer, size: nat, d: S.Pointer, n: nat)
    requires I.PagesOk(h.pages, units) && HeaderAt(images, h, d, n, align) && align >= 4 && size < 0x1_0000
    requires I.IsLive(h, q) && I.SizeAt(h, q) >= 3 && d != q
    requires q.page in images && q.off + 1 < |images[q.page].cells|
    ensures var im := images[q.page];
      HeaderAt(images[q.page := im.(cells := WriteSize(im.cells, q.off, size))], h, d, n, align)
  {
    var cells := images[q.page].cells;
    if d.page == q.page {
      BlocksApart(h.pages[q.page], units, d.off, q.off);
      WriteMisses(cells, q.off, size, d.off);
    }
    HeaderFrom(images, images[q.page := images[q.page].(cells := WriteSize(cells, q.off, size))], h, d, n, align);
  }

  // ---------- what callers keep in their blocks ----------

  /** Unit u belongs to the live block at q. */
  ghost predicate InBlock(h: S.Heap, q: S.Pointer, u: nat) {
    I.IsLive(h, q) && q.off <= u < q.off + UnitsFor(I.SizeAt(h, q))
  }

  ghost predicate SameUnit(images: map<nat, PageImage>, images': map<nat, PageImage>, p: nat, u: nat) {
    && p in images && p in images' && u < |images[p].cells| == |images'[p].cells|
    && images'[p].cells[u] == images[p].cells[u]
  }

  /** Every unit of every block that is live before and after holds the same. */
  ghost predicate BlocksKept(images: map<nat, PageImage>, images': map<nat, PageImage>, h: S.Heap, h': S.Heap) {
    forall q, u :: InBlock(h, q, u) && I.IsLive(h', q) ==> SameUnit(images, images', q.page, u)
  }

  lemma UsedBlocksKept(images: map<nat, PageImage>, images': map<nat, PageImage>, h: S.Heap, h': S.Heap, k: S.Heap, units: nat)
    requires KeepsUsed(images, images', k.pages) && AllStored(images, h.pages, units) && I.PagesOk(k.pages, units)
    requires forall q :: I.IsLive(h, q) && I.IsLive(h', q) ==> I.IsLive(k, q) && I.SizeAt(k, q) == I.SizeAt(h, q)
    ensures BlocksKept(images, images', h, h')
  {
    forall q, u | InBlock(h, q, u) && I.IsLive(h', q) ensures SameUnit(images, images', q.page, u) {
      LiveIsOutside(k.pages[q.page], units, q.off);
      assert Stored(images[q.page], h.pages[q.page], units);
    }
  }

  /** A write inside one block changes no unit of another. */
  lemma OtherUnitKept(images: map<nat, PageImage>, images': map<nat, PageImage>, h: S.Heap, units: nat,
                      r: S.Pointer, lo: nat, hi: nat, q: S.Pointer, u: nat)
    requires WritesOnly(images, images', r.page, lo, hi) && AllStored(images, h.pages, units)
    requires I.PagesOk(h.pages, units) && I.IsLive(h, r) && r.off <= lo <= hi <= r.off + UnitsFor(I.SizeAt(h, r))
    requires InBlock(h, q, u) && q != r
    ensures SameUnit(images, images', q.page, u)
  {
    var page := h.pages[q.page];
    assert Stored(images[q.page], page, units);
    assert PageOk(page, units) && u < units;
    assert InLive(page.live, q.off, u);
    if q.page == r.page && lo <= u < hi {
      assert InLive(page.live, r.off, u);
      OneOwner(page, units, q.off, r.off, u);
    }
  }

  /** A header write is inside its own block. */
  lemma HeaderWriteKeeps(images: map<nat, PageImage>, images': map<nat, PageImage>, h: S.Heap, units: nat, r: S.Pointer)
    requires WritesOnly(images, images', r.page, r.off, r.off + 2) && AllStored(images, h.pages, units)
    requires I.PagesOk(h.pages, units) && I.IsLive(h, r) && I.SizeAt(h, r) >= 3
    ensures forall q, u :: InBlock(h, q, u) && q != r ==> SameUnit(images, images', q.page, u)
  {
    forall q, u | InBlock(h, q, u) && q != r ensures SameUnit(images, images', q.page, u) {
      OtherUnitKept(images, images', h, units, r, r.off, r.off + 2, q, u);
    }
  }

  lemma BlocksKeptTwice(a: map<nat, PageImage>, b: map<nat, PageImage>, c: map<nat, PageImage>,
                        h: S.Heap, h': S.Heap, r: S.Pointer)
    requires BlocksKept(a, b, h, h') && !I.IsLive(h, r)
    requires forall q, u :: InBlock(h', q, u) && q != r ==> SameUnit(b, c, q.page, u)
    requires forall q :: I.IsLive(h, q) && I.IsLive(h', q) ==> I.SizeAt(h', q) == I.SizeAt(h, q)
    ensures BlocksKept(a, c, h, h')
  {
    forall q, u | InBlock(h, q, u) && I.IsLive(h', q) ensures SameUnit(a, c, q.page, u) {
      assert InBlock(h', q, u);
    }
  }

  /** The kmalloc blocks after one was returned. */
  ghost function Recorded(sizes: map<S.Pointer, nat>, r: Option<S.Pointer>, size: nat): map<S.Pointer, nat> {
    if r.None? then sizes else sizes[r.value := size]
  }

  /** The size goes in front of a block, if there is one. */
  method Tag(g: Globals, r: Option<S.Pointer>, size: nat, ghost h: S.Heap, ghost units: nat,
             ghost sizes: map<S.Pointer, nat>, ghost align: nat)
    returns (g': Globals)
    requires Ok(g, h, units, sizes, align) && align >= 4 && size < 0x1_0000
    requires r.Some? ==> r.value !in sizes && I.IsLive(h, r.value) && I.SizeAt(h, r.value) == size + align
    ensures Ok(g', h, units, Recorded(sizes, r, size), align)
    ensures if r.None? then g' == g else WritesOnly(g.images, g'.images, r.value.page, r.value.off, r.value.off + 2)
  {
    g' := g;
    if r.Some? {
      g' := PutHeader(g, r.value, size, h, units, sizes, align);
    }
  }

  /** The small branch of kmalloc: a block with room for the header, and the size in it. */
  method SmallBlock(g: Globals, size: nat, total: nat, slobAlign: nat, grant: Option<nat>, contents: seq<SlobIdx>,
                    ghost h: S.Heap, ghost sizes: map<S.Pointer, nat>, ghost align: nat)
    returns (g': Globals, r: Option<S.Pointer>, ghost h': S.Heap)
    requires Ok(g, h, |contents|, sizes, align) && align >= 4 && total == size + align
    requires I.MayAlloc(h, |contents|, total, grant)
    ensures h' == S.Alloc(h, |contents|, total, slobAlign, grant).0
    ensures r == S.Alloc(h, |contents|, total, slobAlign, grant).1
    ensures r.Some? ==> r.value !in sizes && I.IsLive(h', r.value) && I.SizeAt(h', r.value) == total
    ensures r.Some? ==> Aligned(r.value.off, slobAlign)
    ensures Ok(g', h', |contents|, Recorded(sizes, r, size), align) && BlocksKept(g.images, g'.images, h, h')
  {
    var g1;
    g1, r, h' := AllocKeeps(g, total, slobAlign, grant, contents, h, sizes, align);
    I.AllocEffect(h, |contents|, total, slobAlign, grant);
    UsedBlocksKept(g.images, g1.images, h, h', h, |contents|);
    g' := Tag(g1, r, size, h', |contents|, sizes, align);
    if r.Some? {
      HeaderWriteKeeps(g1.images, g'.images, h', |contents|, r.value);
      BlocksKeptTwice(g.images, g1.images, g'.images, h, h', r.value);
    }
  }

  lemma NotAHeader(images: map<nat, PageImage>, h: S.Heap, sizes: map<S.Pointer, nat>, align: nat, q: S.Pointer)
    requires Headers(images, h, sizes, align) && !I.IsLive(h, q)
    ensures q !in sizes
  {
    assert q in sizes ==> HeaderAt(images, h, q, if q in sizes then sizes[q] else 0, align);
  }

  /** kfree of a kmalloc block: what it reads in front of the payload is the size the block was
      requested with, so slob_free gets the size that was allocated. */
  method FreeSmall(g: Globals, q: S.Pointer, align: nat, ghost h: S.Heap, units: nat, ghost sizes: map<S.Pointer, nat>)
    returns (g': Globals, ghost h': S.Heap)
    requires Ok(g, h, units, sizes, align) && align >= 4 && q in sizes
    ensures h' == S.Free(h, units, q.page, q.off)
    ensures Ok(g', h', units, sizes - {q}, align) && KeepsUsed(g.images, g'.images, h'.pages)
  {
    assert HeaderAt(g.images, h, q, sizes[q], align);
    var size := ReadSize(g.images[q.page].cells, q.off);
    g', h' := FreeKeeps(g, q, size + align, h, units, sizes, align);
  }

  // ---------- where the payload is ----------

  /** The payload at `at` of the block at q: `align` bytes behind its start and itself aligned, with room
      for `size` bytes inside the block and behind the header. */
  ghost predicate PayloadAt(h: S.Heap, q: S.Pointer, at: S.Pointer, size: nat, align: nat)
    requires align > 0
  {
    && I.IsLive(h, q) && I.SizeAt(h, q) == size + align
    && at.page == q.page && 2 * (at.off - q.off) == align && (2 * at.off) % align == 0
    && forall u :: at.off <= u < at.off + (size + 1) / 2 ==> InBlock(h, q, u) && u >= q.off + 2
  }

  lemma PayloadAligned(off: nat, align: nat)
    requires align >= 4 && align % 2 == 0 && Aligned(off, align / 2)
    ensures (2 * (off + align / 2)) % align == 0
  {
    var a := align / 2;
    var k := off / a;
    assert off == k * a;
    assert 2 * (off + a) == (k + 1) * align by {
      assert k * align == k * a + k * a;
      assert (k + 1) * align == k * align + align;
    }
    MultipleIsAligned(k + 1, align);
  }

  lemma PayloadPlaced(h: S.Heap, q: S.Pointer, size: nat, align: nat)
    requires align >= 4 && align % 2 == 0 && I.IsLive(h, q) && I.SizeAt(h, q) == size + align
    requires Aligned(q.off, align / 2)
    ensures PayloadAt(h, q, PayloadOf(q, align), size, align)
  {
    PayloadAligned(q.off, align);
  }

  // ---------- the entry points ----------

  /** The value of an int after it overflowed: the total modulo 2^32. */
  function Wrap32(x: int): (r: int)
    ensures -0x8000_0000 <= r < 0x8000_0000
  {
    (x + 0x8000_0000) % 0x1_0000_0000 - 0x8000_0000
  }

  lemma WithoutOther(sizes: map<S.Pointer, nat>, q: S.Pointer)
    requires q !in sizes
    ensures sizes - {q} == sizes
  {
  }

  /** ksize: what is read in front of the payload, rounded up to units. */
  method PayloadSize(g: Globals, q: S.Pointer, ghost h: S.Heap, ghost size: nat, ghost align: nat) returns (n: nat)
    requires HeaderAt(g.images, h, q, size, align)
    ensures size <= n <= size + 1 && n % 2 == 0
  {
    n := BytesIn(UnitsFor(ReadSize(g.images[q.page].cells, q.off)));
  }

  /** The calls of slob_alloc and slob_free that led from the start to this heap. */
  ghost predicate Led(calls: seq<R.Call>, h: S.Heap, units: nat) {
    R.MayRun(S.EMPTY, units, calls) && h == R.Run(S.EMPTY, units, calls)
  }

  lemma LedOn(calls: seq<R.Call>, h: S.Heap, units: nat, c: R.Call)
    requires Led(calls, h, units) && R.MayCall(h, units, c)
    ensures Led(calls + [c], R.Step(h, units, c), units)
  {
    A.RunAppend(S.EMPTY, units, calls, c);
  }

  /** The free bytes, the rounding of the live blocks, and a page for each call that gave a page back. */
  ghost function FreeReport(calls: seq<R.Call>, h: S.Heap, units: nat): int
    requires R.MayRun(S.EMPTY, units, calls)
  {
    2 * Sum(R.FreeOf(h.pages)) + Sum(R.Rounding(h.pages)) + A.Released(S.EMPTY, units, calls) * (2 * units)
  }

  /** A page for each call that got a page. */
  ghost function ClaimedReport(calls: seq<R.Call>, units: nat): int
    requires R.MayRun(S.EMPTY, units, calls)
  {
    A.Obtained(S.EMPTY, units, calls) * (2 * units)
  }

  method ClaimedLessUsed(g: Globals, ghost h: S.Heap, ghost units: nat, ghost calls: seq<R.Call>) returns (n: int)
    requires Represents(g, h, units) && Led(calls, h, units)
    ensures n == FreeReport(calls, h, units)
  {
    A.CountersTellTheRun(units, calls);
    n := g.claimed - g.used;
  }

  method Claimed(g: Globals, ghost h: S.Heap, ghost units: nat, ghost calls: seq<R.Call>) returns (n: int)
    requires Represents(g, h, units) && Led(calls, h, units)
    ensures n == ClaimedReport(calls, units)
  {
    A.CountersTellTheRun(units, calls);
    n := g.claimed;
  }

  class Kmem {
    const units: nat
    /** The larger of the two minimal alignments, in bytes. */
    const align: nat
    var g: Globals
    ghost var state: S.Heap
    /** The live kmalloc blocks and the sizes they were requested with. */
    ghost var sizes: map<S.Pointer, nat>
    /** The calls of slob_alloc and slob_free so far. */
    ghost var calls: seq<R.Call>

    ghost predicate Valid()
      reads this
    {
      && 4 <= align < 2 * units && align % 2 == 0
      && Ok(g, state, units, sizes, align) && Led(calls, state, units)
    }

    constructor (units: nat, align: nat)
      requires 2 <= units <= MAX_UNITS && 4 <= align < 2 * units && align % 2 == 0
      ensures Valid() && this.units == units && this.align == align && state == S.EMPTY && sizes == map[] && calls == []
    {
      this.units, this.align := units, align;
      g := Globals(map[], S.Lists([], [], []), 0, 0, 0, 0);
      state, sizes, calls := S.EMPTY, map[], [];
      new;
      assert I.LiveBytes(S.EMPTY.pages) == map[] && I.PageBytes(S.EMPTY.pages, units) == map[];
    }

    /** The globals after call c. */
    method Commit(g': Globals, ghost h': S.Heap, ghost sizes': map<S.Pointer, nat>, ghost c: R.Call)
      requires Valid() && Led(calls + [c], h', units) && Ok(g', h', units, sizes', align)
      modifies this
      ensures Valid() && g == g' && state == h' && sizes == sizes' && calls == old(calls) + [c]
    {
      g, state, sizes, calls := g', h', sizes', calls + [c];
    }

    /** __kmalloc. Should the page allocator be asked, it gives page frame `grant` holding
        `contents`, or nothing. */
    method Kmalloc(size: nat, grant: Option<nat>, contents: seq<SlobIdx>) returns (ret: Address)
      requires Valid() && |contents| == units && (grant.Some? ==> grant.value !in state.pages)
      modifies this
      ensures Valid()
      ensures size == 0 ==> ret == ZeroSize && state == old(state) && sizes == old(sizes) && calls == old(calls)
      ensures size >= 2 * units - align ==>
        ret == WholePages && state == old(state) && sizes == old(sizes) && calls == old(calls)
      ensures 0 < size < 2 * units - align ==>
        var r := S.Alloc(old(state), units, WithHeader(size, align), AlignUnits(align), grant).1;
        && state == S.Alloc(old(state), units, WithHeader(size, align), AlignUnits(align), grant).0
        && calls == old(calls) + [R.AllocCall(WithHeader(size, align), AlignUnits(align), grant)]
        && if r.None? then ret == Null && sizes == old(sizes)
           else ret.InSlob? && PayloadAt(state, r.value, ret.at, size, align) && r.value !in old(sizes)
                && sizes == old(sizes)[r.value := size]
    {
      if size >= BytesIn(units) - align {
        return WholePages;
      }
      if size == 0 {
        return ZeroSize;
      }
      var g', r, h' := SmallBlock(g, size, WithHeader(size, align), AlignUnits(align), grant, contents, state, sizes, align);
      LedOn(calls, state, units, R.AllocCall(WithHeader(size, align), AlignUnits(align), grant));
      Commit(g', h', Recorded(sizes, r, size), R.AllocCall(WithHeader(size, align), AlignUnits(align), grant));
      ret := if r.None? then Null else InSlob(PayloadOf(r.value, align));
      if r.Some? { PayloadPlaced(state, r.value, size, align); }
    }

    /** kfree of an address that kmalloc returned and that was not freed since: its block starts `align`
        bytes in front. */
    method Kfree(block: Address)
      requires Valid()
      requires block.InSlob? ==> block.at.off >= AlignUnits(align) && BlockOf(block.at, align) in sizes
      modifies this
      ensures Valid()
      ensures !block.InSlob? ==> state == old(state) && sizes == old(sizes) && calls == old(calls)
      ensures block.InSlob? ==>
        var q := BlockOf(block.at, align);
        && I.IsLive(old(state), q) && state == S.Free(old(state), units, q.page, q.off) && sizes == old(sizes) - {q}
        && calls == old(calls) + [R.FreeCall(q)]
    {
      if block.InSlob? {
        var q := BlockOf(block.at, align);
        assert HeaderAt(g.images, state, q, sizes[q], align);
        ghost var rest := sizes - {q};
        var g', h' := FreeSmall(g, q, align, state, units, sizes);
        LedOn(calls, state, units, R.FreeCall(q));
        Commit(g', h', rest, R.FreeCall(q));
      }
    }

    /** kmem_cache_alloc for objects below PAGE_SIZE. */
    method CacheAlloc(size: nat, slobAlign: nat, grant: Option<nat>, contents: seq<SlobIdx>) returns (r: Option<S.Pointer>)
      requires Valid() && |contents| == units && (grant.Some? ==> grant.value !in state.pages)
      requires 1 <= size < 2 * units
      modifies this
      ensures Valid() && sizes == old(sizes) && calls == old(calls) + [R.AllocCall(size, slobAlign, grant)]
      ensures (state, r) == S.Alloc(old(state), units, size, slobAlign, grant)
    {
      var g', r', h' := AllocKeeps(g, size, slobAlign, grant, contents, state, sizes, align);
      LedOn(calls, state, units, R.AllocCall(size, slobAlign, grant));
      Commit(g', h', sizes, R.AllocCall(size, slobAlign, grant));
      r := r';
    }

    /** kmem_cache_free of a cache object, which has no header. */
    method CacheFree(q: S.Pointer, size: nat)
      requires Valid() && I.IsLive(state, q) && size == I.SizeAt(state, q) && q !in sizes
      modifies this
      ensures Valid() && sizes == old(sizes) && calls == old(calls) + [R.FreeCall(q)]
      ensures state == S.Free(old(state), units, q.page, q.off)
    {
      WithoutOther(sizes, q);
      var g', h' := FreeKeeps(g, q, size, state, units, sizes, align);
      LedOn(calls, state, units, R.FreeCall(q));
      Commit(g', h', sizes, R.FreeCall(q));
    }

    /** ksize of a kmalloc address in a slob page: the requested size rounded up to units. */
    method Ksize(at: S.Pointer) returns (n: nat)
      requires Valid() && at.off >= AlignUnits(align) && BlockOf(at, align) in sizes
      ensures var size := sizes[BlockOf(at, align)]; size <= n <= size + 1 && n % 2 == 0
    {
      var q := BlockOf(at, align);
      n := PayloadSize(g, q, state, sizes[q], align);
    }

    /** sys_slob_free: the free bytes, the rounding of the live blocks, and a page for each call so far that
        gave a page back, as an int. */
    method SysSlobFree() returns (r: int)
      requires Valid()
      ensures r == Wrap32(FreeReport(calls, state, units))
    {
      var n := ClaimedLessUsed(g, state, units, calls);
      r := Wrap32(n);
    }

    /** sys_slob_used returns what was claimed: a page for each call so far that got a page. */
    method SysSlobUsed() returns (r: int)
      requires Valid()
      ensures r == Wrap32(ClaimedReport(calls, units))
    {
      var n := Claimed(g, state, units, calls);
      r := Wrap32(n);
    }
  }

  /** int counters updated with wrap-around hold their totals modulo 2^32. */
  lemma CounterWraps(total: int, change: int)
    ensures Wrap32(Wrap32(total) + change) == Wrap32(total + change)
  {
    var q := (total + 0x8000_0000) / 0x1_0000_0000;
    assert Wrap32(total) == total - q * 0x1_0000_0000;
  }

  /** The difference of two counters reports a total exactly when it is in the range of int. */
  lemma ReportIsExact(claimed: int, used: int)
    ensures Wrap32(Wrap32(claimed) - Wrap32(used)) == claimed - used <==> -0x8000_0000 <= claimed - used < 0x8000_0000
  {
    CounterWraps(claimed, -Wrap32(used));
    var q := (used + 0x8000_0000) / 0x1_0000_0000;
    assert Wrap32(used) == used - q * 0x1_0000_0000;
    assert claimed - Wrap32(used) == claimed - used + q * 0x1_0000_0000;
  }
}
