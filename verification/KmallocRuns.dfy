/** Whole runs of kmalloc, kfree and the cache entry points on page memory, with callers that write
    into their blocks between the calls. */
module KmallocRuns {
  import opened Options
  import opened FreeList
  import opened SlobEncoding
  import opened SlobSizes
  import opened SlobPage
  import opened SlobPageState
  import opened SlobHeap
  import opened Kmalloc
  import S = SlobState
  import I = SlobInvariant

  /** What callers do. A call that may need a new page says which frame the page allocator would give
      and what is in it. A store writes one unit of a block. */
  datatype Request =
    | Kmalloc(size: nat, grant: Option<nat>, contents: seq<SlobIdx>)
    | Kfree(at: S.Pointer)
    | CacheAlloc(size: nat, slobAlign: nat, grant: Option<nat>, contents: seq<SlobIdx>)
    | CacheFree(q: S.Pointer, size: nat)
    | Store(q: S.Pointer, u: nat, value: SlobIdx)

  /** The heap and the sizes of the kmalloc blocks. */
  datatype Blocks = Blocks(heap: S.Heap, sizes: map<S.Pointer, nat>)

  ghost predicate Setting(units: nat, align: nat) {
    2 <= units <= MAX_UNITS && 4 <= align < BytesIn(units) && align % 2 == 0
  }

  /** Callers free what they were given, and store behind the header of their own blocks only. */
  ghost predicate May(b: Blocks, units: nat, align: nat, r: Request) {
    match r
    case Kmalloc(_, grant, contents) => |contents| == units && (grant.Some? ==> grant.value !in b.heap.pages)
    case Kfree(at) => at.off >= AlignUnits(align) && BlockOf(at, align) in b.sizes
    case CacheAlloc(size, _, grant, contents) =>
      |contents| == units && 1 <= size < BytesIn(units) && (grant.Some? ==> grant.value !in b.heap.pages)
    case CacheFree(q, size) => I.IsLive(b.heap, q) && size == I.SizeAt(b.heap, q) && q !in b.sizes
    case Store(q, u, _) => InBlock(b.heap, q, u) && (q in b.sizes ==> u >= q.off + AlignUnits(align))
  }

  ghost function After(b: Blocks, units: nat, align: nat, r: Request): Blocks
    requires Setting(units, align) && May(b, units, align, r)
  {
    match r
    case Kmalloc(size, grant, _) =>
      if size == 0 || size >= BytesIn(units) - align then b
      else
        var a := S.Alloc(b.heap, units, WithHeader(size, align), AlignUnits(align), grant);
        Blocks(a.0, Recorded(b.sizes, a.1, size))
    case Kfree(at) =>
      var q := BlockOf(at, align);
      if I.IsLive(b.heap, q) then Blocks(S.Free(b.heap, units, q.page, q.off), b.sizes - {q}) else b
    case CacheAlloc(size, slobAlign, grant, _) => b.(heap := S.Alloc(b.heap, units, size, slobAlign, grant).0)
    case CacheFree(q, _) => b.(heap := S.Free(b.heap, units, q.page, q.off))
    case Store(_, _, _) => b
  }

  ghost predicate MayAll(b: Blocks, units: nat, align: nat, requests: seq<Request>)
    requires Setting(units, align)
    decreases |requests|
  {
    requests == [] ||
    (May(b, units, align, requests[0]) && MayAll(After(b, units, align, requests[0]), units, align, requests[1..]))
  }

  ghost function AfterAll(b: Blocks, units: nat, align: nat, requests: seq<Request>): Blocks
    requires Setting(units, align) && MayAll(b, units, align, requests)
    decreases |requests|
  {
    if requests == [] then b else AfterAll(After(b, units, align, requests[0]), units, align, requests[1..])
  }

  // ---------- one request ----------

  /** The request leaves unit u of block q to its owner: it neither ends the block nor stores there. */
  predicate Spares(r: Request, align: nat, q: S.Pointer, u: nat) {
    match r
    case Kfree(at) => at.off < AlignUnits(align) || BlockOf(at, align) != q
    case CacheFree(d, _) => d != q
    case Store(d, v, _) => d.page != q.page || v != u
    case _ => true
  }

  /** Every unit of a live block that a request spares holds what it held, in a block that is still live. */
  ghost predicate SparedKept(images: map<nat, PageImage>, images': map<nat, PageImage>, b: Blocks, b': Blocks,
                             r: Request, align: nat) {
    forall q, u :: InBlock(b.heap, q, u) && Spares(r, align, q, u) ==>
      InBlock(b'.heap, q, u) && SameUnit(images, images', q.page, u)
  }

  lemma SparedByAlloc(images: map<nat, PageImage>, images': map<nat, PageImage>, b: Blocks, b': Blocks, r: Request,
                      align: nat, p: Option<S.Pointer>, size: nat)
    requires I.OnlyAdds(b.heap, b'.heap, p, size) && BlocksKept(images, images', b.heap, b'.heap)
    ensures SparedKept(images, images', b, b', r, align)
  {
  }

  lemma SparedByFree(images: map<nat, PageImage>, images': map<nat, PageImage>, b: Blocks, b': Blocks, r: Request,
                     align: nat, d: S.Pointer)
    requires I.OnlyEnds(b.heap, b'.heap, d) && BlocksKept(images, images', b.heap, b'.heap)
    requires forall q, u :: Spares(r, align, q, u) ==> q != d
    ensures SparedKept(images, images', b, b', r, align)
  {
  }

  ghost predicate AllOk(g: Globals, b: Blocks, units: nat, align: nat) { Ok(g, b.heap, units, b.sizes, align) }

  method ServeKmalloc(g: Globals, r: Request, ghost b: Blocks, units: nat, align: nat) returns (g': Globals)
    requires Setting(units, align) && AllOk(g, b, units, align) && r.Kmalloc? && May(b, units, align, r)
    ensures AllOk(g', After(b, units, align, r), units, align)
    ensures SparedKept(g.images, g'.images, b, After(b, units, align, r), r, align)
  {
    if r.size == 0 || r.size >= BytesIn(units) - align {
      g' := g;
      NothingChanged(g, b, units, align, r);
    } else {
      var p;
      ghost var h';
      I.AllocEffect(b.heap, units, WithHeader(r.size, align), AlignUnits(align), r.grant);
      g', p, h' := SmallBlock(g, r.size, WithHeader(r.size, align), AlignUnits(align), r.grant, r.contents,
                              b.heap, b.sizes, align);
      SparedByAlloc(g.images, g'.images, b, After(b, units, align, r), r, align, p, WithHeader(r.size, align));
    }
  }

  lemma NothingChanged(g: Globals, b: Blocks, units: nat, align: nat, r: Request)
    requires AllOk(g, b, units, align)
    ensures SparedKept(g.images, g.images, b, b, r, align)
  {
    AllInImages(g, b.heap, units);
  }

  method ServeKfree(g: Globals, r: Request, ghost b: Blocks, units: nat, align: nat) returns (g': Globals)
    requires Setting(units, align) && AllOk(g, b, units, align) && r.Kfree? && May(b, units, align, r)
    ensures AllOk(g', After(b, units, align, r), units, align)
    ensures SparedKept(g.images, g'.images, b, After(b, units, align, r), r, align)
  {
    var q := BlockOf(r.at, align);
    assert HeaderAt(g.images, b.heap, q, b.sizes[q], align);
    ghost var h';
    g', h' := FreeSmall(g, q, align, b.heap, units, b.sizes);
    I.FreeEffect(b.heap, units, q.page, q.off);
    UsedBlocksKept(g.images, g'.images, b.heap, h', h', units);
    SparedByFree(g.images, g'.images, b, After(b, units, align, r), r, align, q);
  }

  method ServeCacheAlloc(g: Globals, r: Request, ghost b: Blocks, units: nat, align: nat) returns (g': Globals)
    requires Setting(units, align) && AllOk(g, b, units, align) && r.CacheAlloc? && May(b, units, align, r)
    ensures AllOk(g', After(b, units, align, r), units, align)
    ensures SparedKept(g.images, g'.images, b, After(b, units, align, r), r, align)
  {
    var p;
    ghost var h';
    g', p, h' := AllocKeeps(g, r.size, r.slobAlign, r.grant, r.contents, b.heap, b.sizes, align);
    I.AllocEffect(b.heap, units, r.size, r.slobAlign, r.grant);
    UsedBlocksKept(g.images, g'.images, b.heap, h', b.heap, units);
    SparedByAlloc(g.images, g'.images, b, After(b, units, align, r), r, align, p, r.size);
  }

  method ServeCacheFree(g: Globals, r: Request, ghost b: Blocks, units: nat, align: nat) returns (g': Globals)
    requires Setting(units, align) && AllOk(g, b, units, align) && r.CacheFree? && May(b, units, align, r)
    ensures AllOk(g', After(b, units, align, r), units, align)
    ensures SparedKept(g.images, g'.images, b, After(b, units, align, r), r, align)
  {
    ghost var h';
    g', h' := FreeKeeps(g, r.q, r.size, b.heap, units, b.sizes, align);
    WithoutOther(b.sizes, r.q);
    I.FreeEffect(b.heap, units, r.q.page, r.q.off);
    UsedBlocksKept(g.images, g'.images, b.heap, h', h', units);
    SparedByFree(g.images, g'.images, b, After(b, units, align, r), r, align, r.q);
  }

  // ---------- a store by the owner of a block ----------

  /** One unit of page p replaced. */
  function WithUnit(images: map<nat, PageImage>, p: nat, u: nat, value: SlobIdx): map<nat, PageImage>
    requires p in images && u < |images[p].cells|
  {
    images[p := images[p].(cells := images[p].cells[u := value])]
  }

  /** All other units stay. */
  lemma OtherUnit(images: map<nat, PageImage>, p: nat, u: nat, value: SlobIdx, r: nat, v: nat)
    requires p in images && u < |images[p].cells| && r in images && v < |images[r].cells| && (r != p || v != u)
    ensures SameUnit(images, WithUnit(images, p, u, value), r, v)
  {
  }

  lemma InImage(g: Globals, h: S.Heap, units: nat, q: S.Pointer, u: nat)
    requires Represents(g, h, units) && I.PagesOk(h.pages, units) && InBlock(h, q, u)
    ensures q.page in g.images && u < |g.images[q.page].cells|
  {
    assert Stored(g.images[q.page], h.pages[q.page], units);
    assert PageOk(h.pages[q.page], units);
  }

  /** A unit belongs to one block only. */
  lemma UnitsApart(h: S.Heap, units: nat, q: S.Pointer, u: nat, d: S.Pointer, v: nat)
    requires I.PagesOk(h.pages, units) && InBlock(h, q, u) && InBlock(h, d, v) && d != q
    ensures d.page != q.page || v != u
  {
    if d.page == q.page && v == u {
      assert InLive(h.pages[q.page].live, q.off, u) && InLive(h.pages[q.page].live, d.off, u);
      OneOwner(h.pages[q.page], units, q.off, d.off, u);
    }
  }

  lemma HeaderSame(images: map<nat, PageImage>, images': map<nat, PageImage>, h: S.Heap, d: S.Pointer, n: nat, align: nat)
    requires HeaderAt(images, h, d, n, align)
    requires SameUnit(images, images', d.page, d.off) && SameUnit(images, images', d.page, d.off + 1)
    ensures HeaderAt(images', h, d, n, align)
  {
  }

  lemma StoreKeepsImage(im: PageImage, page: PageState, units: nat, off: nat, u: nat, value: SlobIdx)
    requires Stored(im, page, units) && PageOk(page, units) && InLive(page.live, off, u) && u < |im.cells|
    ensures Stored(im.(cells := im.cells[u := value]), page, units)
  {
    LiveIsOutside(page, units, off);
    WriteKeepsImage(im, page.free, im.cells[u := value]);
  }

  /** The free lists stay as they are. */
  lemma StoreRepresents(g: Globals, h: S.Heap, units: nat, q: S.Pointer, u: nat, value: SlobIdx)
    requires Represents(g, h, units) && I.PagesOk(h.pages, units) && InBlock(h, q, u)
    requires q.page in g.images && u < |g.images[q.page].cells|
    ensures Represents(g.(images := WithUnit(g.images, q.page, u, value)), h, units)
  {
    var im, page := g.images[q.page], h.pages[q.page];
    StoreKeepsImage(im, page, units, q.off, u, value);
    StoredAgain(g.images, h.pages, units, q.page, im.(cells := im.cells[u := value]));
  }

  /** So do all headers: the store is behind the header of its own block, or in another block. */
  lemma StoreMissesHeader(b: Blocks, units: nat, align: nat, q: S.Pointer, u: nat, d: S.Pointer, v: nat)
    requires I.PagesOk(b.heap.pages, units) && align >= 4 && InBlock(b.heap, q, u)
    requires q in b.sizes ==> u >= q.off + AlignUnits(align)
    requires d in b.sizes && d.off <= v <= d.off + 1 && InBlock(b.heap, d, v)
    ensures d.page != q.page || v != u
  {
    if d != q { UnitsApart(b.heap, units, q, u, d, v); }
  }

  lemma HeaderInBlock(images: map<nat, PageImage>, h: S.Heap, d: S.Pointer, n: nat, align: nat)
    requires HeaderAt(images, h, d, n, align) && align >= 4
    ensures InBlock(h, d, d.off) && InBlock(h, d, d.off + 1)
  {
  }

  lemma StoreKeepsHeader(images: map<nat, PageImage>, b: Blocks, units: nat, align: nat,
                         q: S.Pointer, u: nat, value: SlobIdx, d: S.Pointer)
    requires I.PagesOk(b.heap.pages, units) && align >= 4 && d in b.sizes
    requires HeaderAt(images, b.heap, d, b.sizes[d], align)
    requires InBlock(b.heap, q, u) && (q in b.sizes ==> u >= q.off + AlignUnits(align))
    requires q.page in images && u < |images[q.page].cells|
    ensures HeaderAt(WithUnit(images, q.page, u, value), b.heap, d, b.sizes[d], align)
  {
    HeaderInBlock(images, b.heap, d, b.sizes[d], align);
    StoreMissesHeader(b, units, align, q, u, d, d.off);
    StoreMissesHeader(b, units, align, q, u, d, d.off + 1);
    OtherUnit(images, q.page, u, value, d.page, d.off);
    OtherUnit(images, q.page, u, value, d.page, d.off + 1);
    HeaderSame(images, WithUnit(images, q.page, u, value), b.heap, d, b.sizes[d], align);
  }

  lemma StoreKeepsHeaders(g: Globals, b: Blocks, units: nat, align: nat, q: S.Pointer, u: nat, value: SlobIdx)
    requires AllOk(g, b, units, align) && align >= 4 && q.page in g.images && u < |g.images[q.page].cells|
    requires InBlock(b.heap, q, u) && (q in b.sizes ==> u >= q.off + AlignUnits(align))
    ensures Headers(WithUnit(g.images, q.page, u, value), b.heap, b.sizes, align)
  {
    var images' := WithUnit(g.images, q.page, u, value);
    forall d | d in b.sizes ensures HeaderAt(images', b.heap, d, b.sizes[d], align) {
      assert HeaderAt(g.images, b.heap, d, b.sizes[d], align);
      StoreKeepsHeader(g.images, b, units, align, q, u, value, d);
    }
  }

  /** Every unit of a live block is in memory. */
  ghost predicate InImages(images: map<nat, PageImage>, h: S.Heap) {
    forall q: S.Pointer, u: nat :: InBlock(h, q, u) ==> q.page in images && u < |images[q.page].cells|
  }

  lemma AllInImages(g: Globals, h: S.Heap, units: nat)
    requires Represents(g, h, units) && I.PagesOk(h.pages, units)
    ensures InImages(g.images, h)
  {
    forall q: S.Pointer, u: nat | InBlock(h, q, u) ensures q.page in g.images && u < |g.images[q.page].cells| {
      InImage(g, h, units, q, u);
    }
  }

  lemma StoreSpares(images: map<nat, PageImage>, b: Blocks, align: nat, q: S.Pointer, u: nat, value: SlobIdx)
    requires InImages(images, b.heap) && q.page in images && u < |images[q.page].cells|
    ensures SparedKept(images, WithUnit(images, q.page, u, value), b, b, Store(q, u, value), align)
  {
    forall d, v | InBlock(b.heap, d, v) && Spares(Store(q, u, value), align, d, v)
      ensures SameUnit(images, WithUnit(images, q.page, u, value), d.page, v)
    {
      OtherUnit(images, q.page, u, value, d.page, v);
    }
  }

  lemma StoreOk(g: Globals, b: Blocks, units: nat, align: nat, q: S.Pointer, u: nat, value: SlobIdx)
    requires Setting(units, align) && AllOk(g, b, units, align) && May(b, units, align, Store(q, u, value))
    ensures q.page in g.images && u < |g.images[q.page].cells|
    ensures AllOk(g.(images := WithUnit(g.images, q.page, u, value)), b, units, align)
    ensures SparedKept(g.images, WithUnit(g.images, q.page, u, value), b, b, Store(q, u, value), align)
  {
    InImage(g, b.heap, units, q, u);
    StoreRepresents(g, b.heap, units, q, u, value);
    AllInImages(g, b.heap, units);
    StoreSpares(g.images, b, align, q, u, value);
    StoreKeepsHeaders(g, b, units, align, q, u, value);
  }

  /** The globals after a store. */
  function StoreIn(g: Globals, r: Request): Globals
    requires r.Store? && r.q.page in g.images && r.u < |g.images[r.q.page].cells|
  {
    g.(images := WithUnit(g.images, r.q.page, r.u, r.value))
  }

  lemma StoreServes(g: Globals, r: Request, b: Blocks, units: nat, align: nat)
    requires Setting(units, align) && AllOk(g, b, units, align) && r.Store? && May(b, units, align, r)
    ensures r.q.page in g.images && r.u < |g.images[r.q.page].cells|
    ensures AllOk(StoreIn(g, r), After(b, units, align, r), units, align)
    ensures SparedKept(g.images, StoreIn(g, r).images, b, After(b, units, align, r), r, align)
  {
    StoreOk(g, b, units, align, r.q, r.u, r.value);
    assert r == Store(r.q, r.u, r.value) && After(b, units, align, r) == b;
  }

  method ServeStore(g: Globals, r: Request, ghost b: Blocks, ghost units: nat, ghost align: nat) returns (g': Globals)
    requires Setting(units, align) && AllOk(g, b, units, align) && r.Store? && May(b, units, align, r)
    ensures AllOk(g', After(b, units, align, r), units, align)
    ensures SparedKept(g.images, g'.images, b, After(b, units, align, r), r, align)
  {
    StoreServes(g, r, b, units, align);
    g' := StoreIn(g, r);
  }

  // ---------- every run ----------

  method Serve(g: Globals, r: Request, ghost b: Blocks, units: nat, align: nat) returns (g': Globals)
    requires Setting(units, align) && AllOk(g, b, units, align) && May(b, units, align, r)
    ensures AllOk(g', After(b, units, align, r), units, align)
    ensures SparedKept(g.images, g'.images, b, After(b, units, align, r), r, align)
  {
    match r {
      case Kmalloc(_, _, _) => g' := ServeKmalloc(g, r, b, units, align);
      case Kfree(_) => g' := ServeKfree(g, r, b, units, align);
      case CacheAlloc(_, _, _, _) => g' := ServeCacheAlloc(g, r, b, units, align);
      case CacheFree(_, _) => g' := ServeCacheFree(g, r, b, units, align);
      case Store(_, _, _) => g' := ServeStore(g, r, b, units, align);
    }
  }

  /** No request of a sequence ends block q or stores to its unit u. */
  ghost predicate SparedByAll(requests: seq<Request>, align: nat, q: S.Pointer, u: nat) {
    forall i :: 0 <= i < |requests| ==> Spares(requests[i], align, q, u)
  }

  /** Every unit of a live block that a whole run spares holds what it held. */
  ghost predicate RunKept(images: map<nat, PageImage>, images': map<nat, PageImage>, b: Blocks, b': Blocks,
                          requests: seq<Request>, align: nat) {
    forall q, u :: InBlock(b.heap, q, u) && SparedByAll(requests, align, q, u) ==>
      InBlock(b'.heap, q, u) && SameUnit(images, images', q.page, u)
  }

  lemma RunKeptOn(x: map<nat, PageImage>, y: map<nat, PageImage>, z: map<nat, PageImage>, b: Blocks, c: Blocks, d: Blocks,
                  requests: seq<Request>, align: nat)
    requires requests != [] && SparedKept(x, y, b, c, requests[0], align) && RunKept(y, z, c, d, requests[1..], align)
    ensures RunKept(x, z, b, d, requests, align)
  {
    forall q, u | InBlock(b.heap, q, u) && SparedByAll(requests, align, q, u)
      ensures InBlock(d.heap, q, u) && SameUnit(x, z, q.page, u)
    {
      assert Spares(requests[0], align, q, u);
      assert SparedByAll(requests[1..], align, q, u);
    }
  }

  /** Serving requests one after the other on page memory: in every state that is reached the units of
      each page store its canonical free list, which with the live blocks partitions the page, the lists
      and counters are exact, every kmalloc block has its size in front, and what owners keep in their
      blocks stays until they store there or free the block. */
  method ServeAll(g: Globals, requests: seq<Request>, ghost b: Blocks, units: nat, align: nat) returns (g': Globals)
    requires Setting(units, align) && AllOk(g, b, units, align) && MayAll(b, units, align, requests)
    ensures AllOk(g', AfterAll(b, units, align, requests), units, align)
    ensures RunKept(g.images, g'.images, b, AfterAll(b, units, align, requests), requests, align)
    decreases |requests|
  {
    if requests == [] {
      g' := g;
      RunKeptHere(g, b, units, align);
    } else {
      ghost var c := After(b, units, align, requests[0]);
      var g1 := Serve(g, requests[0], b, units, align);
      g' := ServeAll(g1, requests[1..], c, units, align);
      RunKeptOn(g.images, g1.images, g'.images, b, c, AfterAll(b, units, align, requests), requests, align);
    }
  }

  lemma RunKeptHere(g: Globals, b: Blocks, units: nat, align: nat)
    requires AllOk(g, b, units, align)
    ensures RunKept(g.images, g.images, b, b, [], align)
  {
    AllInImages(g, b.heap, units);
  }

  const NONE: Blocks := Blocks(S.EMPTY, map[])

  /** The same from the start, where no page is held. */
  method ServeFromStart(requests: seq<Request>, units: nat, align: nat) returns (g: Globals)
    requires Setting(units, align) && MayAll(NONE, units, align, requests)
    ensures var b := AfterAll(NONE, units, align, requests);
      && AllOk(g, b, units, align)
      && (forall p :: p in g.images ==>
            p in b.heap.pages && PageOk(b.heap.pages[p], units)
            && Decode(g.images[p].cells, g.images[p].freelist) == Some(b.heap.pages[p].free))
      && (forall q :: q in b.sizes ==> HeaderAt(g.images, b.heap, q, b.sizes[q], align))
  {
    g := Globals(map[], S.Lists([], [], []), 0, 0, 0, 0);
    assert I.LiveBytes(S.EMPTY.pages) == map[] && I.PageBytes(S.EMPTY.pages, units) == map[];
    g := ServeAll(g, requests, NONE, units, align);
    PagesDecode(g, AfterAll(NONE, units, align, requests), units, align);
  }

  lemma PagesDecode(g: Globals, b: Blocks, units: nat, align: nat)
    requires AllOk(g, b, units, align)
    ensures forall p :: p in g.images ==>
      p in b.heap.pages && PageOk(b.heap.pages[p], units)
      && Decode(g.images[p].cells, g.images[p].freelist) == Some(b.heap.pages[p].free)
  {
    forall p | p in g.images
      ensures p in b.heap.pages && PageOk(b.heap.pages[p], units)
        && Decode(g.images[p].cells, g.images[p].freelist) == Some(b.heap.pages[p].free)
    {
      assert Stored(g.images[p], b.heap.pages[p], units);
    }
  }

  // ---------- the sizes ----------

  /** The blocks kmalloc gave out and that were not freed are live. */
  ghost predicate SizesLive(b: Blocks) { forall q :: q in b.sizes ==> I.IsLive(b.heap, q) }

  lemma AfterKeepsSize(b: Blocks, units: nat, align: nat, r: Request, q: S.Pointer)
    requires Setting(units, align) && I.Inv(b.heap, units) && SizesLive(b) && May(b, units, align, r) && q in b.sizes
    requires r != Kfree(PayloadOf(q, align))
    ensures var b' := After(b, units, align, r); q in b'.sizes && b'.sizes[q] == b.sizes[q]
  {
    if r.Kmalloc? && 0 < r.size < BytesIn(units) - align {
      NewBlockIsNotLive(b.heap, units, WithHeader(r.size, align), AlignUnits(align), r.grant, q);
    }
    SizeStays(b, units, align, r, q);
  }

  lemma SizeStays(b: Blocks, units: nat, align: nat, r: Request, q: S.Pointer)
    requires Setting(units, align) && May(b, units, align, r) && q in b.sizes && r != Kfree(PayloadOf(q, align))
    requires r.Kmalloc? && 0 < r.size < BytesIn(units) - align ==>
      S.Alloc(b.heap, units, WithHeader(r.size, align), AlignUnits(align), r.grant).1 != Some(q)
    ensures var b' := After(b, units, align, r); q in b'.sizes && b'.sizes[q] == b.sizes[q]
  {
  }

  lemma NewBlockIsNotLive(h: S.Heap, units: nat, size: nat, align: nat, grant: Option<nat>, q: S.Pointer)
    requires I.Inv(h, units) && I.MayAlloc(h, units, size, grant) && I.IsLive(h, q)
    ensures S.Alloc(h, units, size, align, grant).1 != Some(q)
  {
    I.AllocEffect(h, units, size, align, grant);
  }

  lemma AfterKeepsOk(b: Blocks, units: nat, align: nat, r: Request)
    requires Setting(units, align) && I.Inv(b.heap, units) && SizesLive(b) && May(b, units, align, r)
    ensures I.Inv(After(b, units, align, r).heap, units) && SizesLive(After(b, units, align, r))
  {
    match r
    case Kmalloc(size, grant, _) =>
      if 0 < size < BytesIn(units) - align {
        I.AllocKeepsInv(b.heap, units, WithHeader(size, align), AlignUnits(align), grant);
        I.AllocEffect(b.heap, units, WithHeader(size, align), AlignUnits(align), grant);
      }
    case Kfree(at) =>
      var q := BlockOf(at, align);
      I.FreeKeepsInv(b.heap, units, q.page, q.off);
      I.FreeEffect(b.heap, units, q.page, q.off);
    case CacheAlloc(size, slobAlign, grant, _) =>
      I.AllocKeepsInv(b.heap, units, size, slobAlign, grant);
      I.AllocEffect(b.heap, units, size, slobAlign, grant);
    case CacheFree(q, _) =>
      I.FreeKeepsInv(b.heap, units, q.page, q.off);
      I.FreeEffect(b.heap, units, q.page, q.off);
    case Store(_, _, _) =>
  }

  /** A kmalloc block keeps the size it was requested with through every run that does not free it. */
  lemma {:induction false} SizeSurvives(b: Blocks, units: nat, align: nat, requests: seq<Request>, q: S.Pointer)
    requires Setting(units, align) && I.Inv(b.heap, units) && SizesLive(b) && MayAll(b, units, align, requests)
    requires q in b.sizes && Kfree(PayloadOf(q, align)) !in requests
    ensures var b' := AfterAll(b, units, align, requests); q in b'.sizes && b'.sizes[q] == b.sizes[q]
    decreases |requests|
  {
    if requests != [] {
      AfterKeepsSize(b, units, align, requests[0], q);
      AfterKeepsOk(b, units, align, requests[0]);
      SizeSurvives(After(b, units, align, requests[0]), units, align, requests[1..], q);
    }
  }

  /** What kfree reads in front of the payload, with the alignment, is what was allocated. */
  lemma KfreeHandsTheSize(g: Globals, b: Blocks, units: nat, align: nat, q: S.Pointer)
    requires AllOk(g, b, units, align) && q in b.sizes
    ensures q.page in g.images && q.off + 1 < |g.images[q.page].cells|
    ensures ReadSize(g.images[q.page].cells, q.off) + align == I.SizeAt(b.heap, q)
  {
    assert HeaderAt(g.images, b.heap, q, b.sizes[q], align);
  }

  lemma PayloadInBlock(h: S.Heap, q: S.Pointer, size: nat, align: nat, at: S.Pointer, u: nat)
    requires align >= 4 && I.IsLive(h, q) && I.SizeAt(h, q) == size + align
    requires 2 * (at.off - q.off) == align && at.off <= u < at.off + (size + 1) / 2
    ensures InBlock(h, q, u) && u >= q.off + 2
  {
  }

  lemma BlockUnitUsed(h: S.Heap, units: nat, q: S.Pointer, u: nat)
    requires I.PagesOk(h.pages, units) && InBlock(h, q, u)
    ensures u < units && !Covers(h.pages[q.page].free, u)
  {
    LiveIsOutside(h.pages[q.page], units, q.off);
  }

  lemma UnitIsOwn(h: S.Heap, units: nat, q: S.Pointer, u: nat)
    requires I.PagesOk(h.pages, units) && InBlock(h, q, u)
    ensures forall d :: d != q && d.page == q.page ==> !InBlock(h, d, u)
  {
    forall d | d != q && d.page == q.page && InBlock(h, d, u) ensures false {
      UnitsApart(h, units, q, u, d, u);
    }
  }

  /** What a caller of kmalloc may write, `size` bytes from `align` bytes behind the start of the block on,
      is inside the page, behind the size header, not free, and in no other live block. */
  lemma PayloadIsOwn(g: Globals, b: Blocks, units: nat, align: nat, q: S.Pointer, at: S.Pointer, u: nat)
    requires Setting(units, align) && AllOk(g, b, units, align) && q in b.sizes
    requires at.page == q.page && 2 * (at.off - q.off) == align && at.off <= u < at.off + (b.sizes[q] + 1) / 2
    ensures u < units && u >= q.off + 2 && InBlock(b.heap, q, u) && !Covers(b.heap.pages[q.page].free, u)
    ensures forall d :: d != q && d.page == q.page ==> !InBlock(b.heap, d, u)
  {
    assert HeaderAt(g.images, b.heap, q, b.sizes[q], align);
    PayloadInBlock(b.heap, q, b.sizes[q], align, at, u);
    BlockUnitUsed(b.heap, units, q, u);
    UnitIsOwn(b.heap, units, q, u);
  }
}
