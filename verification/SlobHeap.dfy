/** The slob allocator proper: pages in memory, the three lists and the counters, with slob_alloc
    and slob_free. Each method refines the function on heap values it names. */
module SlobHeap {
  import opened Options
  import opened FreeList
  import opened SlobEncoding
  import opened SlobSizes
  import opened SlobPage
  import opened SlobPageState
  import S = SlobState
  import I = SlobInvariant
  import L = SlobLaws
  import A = SlobAccounts
  import R = SlobRuns
  import Sums

  /** The page in memory stores the free list the state gives it. */
  ghost predicate Stored(im: PageImage, page: PageState, units: nat) {
    |im.cells| == units && ImageOk(im, page.free)
  }

  ghost predicate AllStored(images: map<nat, PageImage>, pages: map<nat, PageState>, units: nat) {
    images.Keys == pages.Keys && forall p :: p in images ==> Stored(images[p], pages[p], units)
  }

  /** On all these pages, units that are not free hold the same before and after. */
  ghost predicate KeepsUsed(images: map<nat, PageImage>, images': map<nat, PageImage>, pages: map<nat, PageState>) {
    forall p :: p in pages ==>
      p in images && p in images' && SameOutside(images[p].cells, images'[p].cells, pages[p].free)
  }

  lemma StoredUpdate(images: map<nat, PageImage>, pages: map<nat, PageState>, units: nat, p: nat, im: PageImage, page: PageState)
    requires AllStored(images, pages, units) && Stored(im, page, units)
    ensures AllStored(images[p := im], pages[p := page], units)
  {
  }

  lemma StoredAgain(images: map<nat, PageImage>, pages: map<nat, PageState>, units: nat, p: nat, im: PageImage)
    requires AllStored(images, pages, units) && p in pages && Stored(im, pages[p], units)
    ensures AllStored(images[p := im], pages, units)
  {
  }

  lemma OneKept(images: map<nat, PageImage>, pages: map<nat, PageState>, p: nat, im: PageImage)
    requires images.Keys == pages.Keys
    requires p in pages ==> SameOutside(images[p].cells, im.cells, pages[p].free)
    ensures KeepsUsed(images, images[p := im], pages)
  {
  }

  /** The lists, the counters and the pages in memory. `used` and `claimed` are the totals behind
      the int counters used_m and claimed_m. */
  datatype Globals = Globals(
    images: map<nat, PageImage>,
    lists: S.Lists,
    free: nat,
    pcount: int,
    used: int,
    claimed: int)

  /** The globals are those of the heap value, and the units of the pages store its free lists. */
  ghost predicate Represents(g: Globals, h: S.Heap, units: nat) {
    && 2 <= units <= MAX_UNITS
    && AllStored(g.images, h.pages, units)
    && g.lists == h.lists && g.free == h.free && g.pcount == h.pcount && g.used == h.used && g.claimed == h.claimed
  }

  // ---------- slob_alloc ----------

  /** The scan of slob_alloc for the page to try; sp_alt starts out as NULL. */
  method BestFit(images: map<nat, PageImage>, list: seq<nat>, need: nat, ghost pages: map<nat, PageState>)
    returns (best: Option<nat>)
    requires forall p :: p in images ==> images[p].units == S.FreeUnits(pages, p)
    requires forall p :: p in list ==> p in images
    ensures best == S.BestPage(pages, list, need, None)
    ensures best.Some? ==> best.value in images && S.FreeUnits(pages, best.value) >= need
  {
    best := None;
    for i := 0 to |list|
      invariant best.Some? ==> best.value in images && S.FreeUnits(pages, best.value) >= need
      invariant S.BestPage(pages, list, need, None) == S.BestPage(pages, list[i..], need, best)
    {
      var sp := list[i];
      if images[sp].units >= need {
        if best.None? {
          best := Some(sp);
        }
        if images[sp].units < images[best.value].units {
          best := Some(sp);
        }
      }
      assert list[i..][1..] == list[i + 1..];
    }
  }

  /** One of the three counting loops of slob_alloc. */
  method CountList(images: map<nat, PageImage>, list: seq<nat>, ghost pages: map<nat, PageState>) returns (n: nat)
    requires forall p :: p in images ==> images[p].units == S.FreeUnits(pages, p)
    requires forall p :: p in list ==> p in images
    ensures n == S.ListedUnits(pages, list)
  {
    n := 0;
    for i := 0 to |list|
      invariant S.ListedUnits(pages, list) == n + S.ListedUnits(pages, list[i..])
    {
      n := n + images[list[i]].units;
      assert list[i..][1..] == list[i + 1..];
    }
  }

  /** The three counting loops together. */
  method CountFree(g: Globals, ghost h: S.Heap, ghost units: nat) returns (n: nat)
    requires Represents(g, h, units) && I.ListsOk(h.pages, h.lists)
    ensures n == S.ListedUnits(h.pages, h.lists.All())
  {
    StoredCounted(g.images, h.pages, units);
    ListedStored(g.images, h.pages, units, h.lists);
    var small := CountList(g.images, g.lists.small, h.pages);
    var medium := CountList(g.images, g.lists.medium, h.pages);
    var large := CountList(g.images, g.lists.large, h.pages);
    n := small + medium + large;
    ListedUnitsConcat(h.pages, h.lists.small, h.lists.medium);
    ListedUnitsConcat(h.pages, h.lists.small + h.lists.medium, h.lists.large);
  }

  /** slob_page_alloc on page p, which leaves its list when nothing is left. */
  method TakeFrom(g: Globals, p: nat, size: nat, align: nat, ghost h: S.Heap, ghost units: nat)
    returns (g': Globals, r: Option<S.Pointer>)
    requires Represents(g, h, units) && S.FreeUnits(h.pages, p) > 0 && size >= 1
    ensures var t := Take(h.pages[p].free, UnitsFor(size), align);
      if t.None? then r == None && Represents(g', h, units)
      else r == Some(S.Pointer(p, t.value.start)) && Represents(g', S.TakeFrom(h, p, t.value, size), units)
    ensures KeepsUsed(g.images, g'.images, h.pages)
  {
    ghost var page := h.pages[p];
    ghost var t := Take(page.free, UnitsFor(size), align);
    var im, o := TakeOn(g.images[p], size, align, page, units);
    OneKept(g.images, h.pages, p, im);
    g' := g.(images := g.images[p := im]);
    if o.None? {
      StoredAgain(g.images, h.pages, units, p, im);
      return g', None;
    }
    StoredUpdate(g.images, h.pages, units, p, im, TakenFrom(page, t.value, size));
    if im.units == 0 {
      g' := g'.(lists := g.lists.Remove(p));
    }
    r := Some(S.Pointer(p, o.value));
  }

  /** The attempt of slob_alloc on the best listed page. */
  method Attempt(g: Globals, size: nat, align: nat, ghost h: S.Heap, ghost units: nat)
    returns (g': Globals, r: Option<S.Pointer>)
    requires Represents(g, h, units) && I.PagesOk(h.pages, units) && I.ListsOk(h.pages, h.lists) && size >= 1
    ensures Represents(g', S.Attempt(h, size, align).0, units) && r == S.Attempt(h, size, align).1
    ensures KeepsUsed(g.images, g'.images, h.pages)
    ensures L.AttemptAnswers(h, size, align, r)
  {
    L.AttemptAnswer(h, units, size, align);
    StoredCounted(g.images, h.pages, units);
    ListedStored(g.images, h.pages, units, h.lists);
    var best := BestFit(g.images, g.lists.For(ClassOf(size)), UnitsFor(size), h.pages);
    if best.None? {
      AllKept(g.images, h.pages);
      return g, None;
    }
    g', r := TakeFrom(g, best.value, size, align, h, units);
  }

  /** A new page: it is listed, the block is taken from it, and it is unlisted again when the
      block fills it. */
  method Grow(g: Globals, f: nat, contents: seq<SlobIdx>, size: nat, align: nat, ghost h: S.Heap) returns (g': Globals)
    requires Represents(g, h, |contents|) && f !in g.images && h.lists.Count(f) == 0
    requires size >= 1 && UnitsFor(size) <= |contents|
    ensures Represents(g', S.Grow(h, |contents|, f, size), |contents|)
    ensures KeepsUsed(g.images, g'.images, h.pages)
    ensures PageCounted(g, g', |contents|, size, f)
  {
    I.AddThenRemove(h.lists, ClassOf(size), f);
    var im := FirstBlock(contents, size, align);
    OneKept(g.images, h.pages, f, im);
    StoredUpdate(g.images, h.pages, |contents|, f, im,
                 PageState(Carve(Block(0, |contents|), 0, UnitsFor(size)), map[0 := size]));
    var listed := g.lists.Add(ClassOf(size), f);
    if im.units == 0 {
      listed := listed.Remove(f);
    }
    g' := g.(images := g.images[f := im], lists := listed, pcount := g.pcount + 1,
             claimed := g.claimed + BytesIn(|contents|));
    GrowCounts(g, g', |contents|, size, f, h);
  }

  /** One page more is counted, and it is in front of the list for its size, unless the block fills it. */
  ghost predicate PageCounted(g: Globals, g': Globals, units: nat, size: nat, f: nat) {
    && g'.claimed == g.claimed + 2 * units && g'.pcount == g.pcount + 1
    && g'.lists == if (size + 1) / 2 == units then g.lists
                   else L.WithList(g.lists, size, [f] + L.ListFor(g.lists, size))
  }

  lemma GrowCounts(g: Globals, g': Globals, units: nat, size: nat, f: nat, h: S.Heap)
    requires size >= 1 && UnitsFor(size) <= units
    requires Represents(g, h, units) && Represents(g', S.Grow(h, units, f, size), units)
    ensures PageCounted(g, g', units, size, f)
  {
    L.GrownLists(h.lists, units, size, f);
  }

  /** The rest of slob_alloc after the attempt gave `r`. */
  method Settle(g: Globals, r: Option<S.Pointer>, size: nat, align: nat, grant: Option<nat>, contents: seq<SlobIdx>,
                ghost h: S.Heap)
    returns (g': Globals, r': Option<S.Pointer>)
    requires Represents(g, h, |contents|) && I.ListsOk(h.pages, h.lists) && I.MayAlloc(h, |contents|, size, grant)
    ensures var s := S.Settle(h, r, |contents|, size, grant); Represents(g', s.0, |contents|) && r' == s.1
    ensures if r.Some? then g'.images == g.images else KeepsUsed(g.images, g'.images, h.pages)
  {
    var n := CountFree(g, h, |contents|);
    ghost var h2 := h.(free := n);
    g', r' := g.(free := n), r;
    AllKept(g.images, h.pages);
    if r.None? {
      if grant.None? {
        return;
      }
      NotListed(h.pages, h.lists, grant.value);
      g' := Grow(g', grant.value, contents, size, align, h2);
      r' := Some(S.Pointer(grant.value, 0));
    }
    g' := g'.(used := g'.used + size);
  }

  /** slob_alloc on the globals. The counter `free` is the number of free units left in all pages that
      were slob pages before. */
  method AllocBlock(g: Globals, size: nat, align: nat, grant: Option<nat>, contents: seq<SlobIdx>, ghost h: S.Heap)
    returns (g': Globals, r: Option<S.Pointer>, ghost h': S.Heap)
    requires Represents(g, h, |contents|) && I.Inv(h, |contents|) && I.MayAlloc(h, |contents|, size, grant)
    ensures (h', r) == S.Alloc(h, |contents|, size, align, grant)
    ensures Represents(g', h', |contents|) && I.Inv(h', |contents|)
    ensures KeepsUsed(g.images, g'.images, h.pages)
    ensures L.Allocated(h, h', r, |contents|, size, align, grant)
    ensures g'.free == Sums.Sum(R.FreeOf(A.OldPages(h, h')))
  {
    ghost var h1, p1;
    h1, p1, h' := AllocParts(h, |contents|, size, align, grant);
    var g1, r1 := Attempt(g, size, align, h, |contents|);
    g', r := Settle(g1, r1, size, align, grant, contents, h1);
  }

  /** slob_alloc as the attempt and the rest. */
  lemma AllocParts(h: S.Heap, units: nat, size: nat, align: nat, grant: Option<nat>)
    returns (h1: S.Heap, r1: Option<S.Pointer>, h': S.Heap)
    requires I.Inv(h, units) && I.MayAlloc(h, units, size, grant)
    ensures (h1, r1) == S.Attempt(h, size, align) && h' == S.Alloc(h, units, size, align, grant).0
    ensures S.Alloc(h, units, size, align, grant) == S.Settle(h1, r1, units, size, grant)
    ensures I.Inv(h', units) && I.ListsOk(h1.pages, h1.lists) && I.MayAlloc(h1, units, size, grant)
    ensures r1.None? ==> h1 == h
    ensures L.Allocated(h, h', S.Alloc(h, units, size, align, grant).1, units, size, align, grant)
    ensures h'.free == Sums.Sum(R.FreeOf(A.OldPages(h, h')))
  {
    A.FreeCounter(h, units, size, align, grant);
    L.AllocIs(h, units, size, align, grant);
    I.AllocKeepsInv(h, units, size, align, grant);
    I.AttemptKeeps(h, units, size, align);
    h1, r1 := S.Attempt(h, size, align).0, S.Attempt(h, size, align).1;
    h' := S.Alloc(h, units, size, align, grant).0;
  }

  // ---------- slob_free ----------

  /** The page is given back. */
  method Release(g: Globals, p: nat, size: nat, ghost h: S.Heap, ghost units: nat) returns (g': Globals)
    requires Represents(g, h, units)
    ensures Represents(g', S.Release(h, p, size), units)
    ensures KeepsUsed(g.images, g'.images, h.pages - {p})
  {
    g' := g.(images := g.images - {p}, lists := g.lists.Remove(p), used := g.used - size, pcount := g.pcount - 1);
  }

  /** The block goes back into the free list of its page, which is listed if it was full. */
  method Reinsert(g: Globals, p: nat, off: nat, size: nat, ghost h: S.Heap, ghost units: nat) returns (g': Globals)
    requires Represents(g, h, units) && I.IsLive(h, S.Pointer(p, off)) && size == I.SizeAt(h, S.Pointer(p, off))
    requires PageOk(h.pages[p], units)
    ensures Represents(g', S.Reinsert(h, p, off), units)
    ensures KeepsUsed(g.images, g'.images, S.Reinsert(h, p, off).pages)
  {
    ghost var page := h.pages[p];
    assert Stored(g.images[p], page, units);
    var im := FreeOn(g.images[p], off, size, page, units);
    StoredUpdate(g.images, h.pages, units, p, im, Freed(page, off));
    OneKept(g.images, h.pages[p := Freed(page, off)], p, im);
    var listed := if g.images[p].slobFree then g.lists else g.lists.Add(ClassOf(size), p);
    g' := g.(images := g.images[p := im], lists := listed, used := g.used - size);
  }

  /** slob_free on the globals. */
  method FreeBlock(g: Globals, p: nat, off: nat, size: nat, ghost h: S.Heap, units: nat)
    returns (g': Globals, ghost h': S.Heap)
    requires Represents(g, h, units) && I.Inv(h, units)
    requires I.IsLive(h, S.Pointer(p, off)) && size == I.SizeAt(h, S.Pointer(p, off))
    ensures h' == S.Free(h, units, p, off) && Represents(g', h', units) && I.Inv(h', units)
    ensures KeepsUsed(g.images, g'.images, h'.pages)
    ensures if h.pages[p].live.Keys == {off} then L.PageReleased(h, h', p, size) else L.BlockReturned(h, h', p, off, size)
  {
    L.FreeIs(h, units, p, off);
    I.FreeKeepsInv(h, units, p, off);
    h' := S.Free(h, units, p, off);
    StoredCounted(g.images, h.pages, units);
    if g.images[p].units + UnitsFor(size) == units {
      g' := Release(g, p, size, h, units);
    } else {
      g' := Reinsert(g, p, off, size, h, units);
    }
  }

  lemma NotListed(pages: map<nat, PageState>, lists: S.Lists, f: nat)
    requires I.ListsOk(pages, lists) && f !in pages
    ensures lists.Count(f) == 0
  {
  }

  lemma StoredCounted(images: map<nat, PageImage>, pages: map<nat, PageState>, units: nat)
    requires AllStored(images, pages, units)
    ensures forall p :: p in images ==> images[p].units == S.FreeUnits(pages, p)
  {
    forall p | p in images ensures images[p].units == S.FreeUnits(pages, p) {
      assert Stored(images[p], pages[p], units);
    }
  }

  lemma ListedStored(images: map<nat, PageImage>, pages: map<nat, PageState>, units: nat, lists: S.Lists)
    requires AllStored(images, pages, units) && I.ListsOk(pages, lists)
    ensures forall p :: p in lists.small || p in lists.medium || p in lists.large ==> p in images
  {
    forall p | p in lists.small || p in lists.medium || p in lists.large ensures p in images {
      assert lists.Count(p) > 0;
    }
  }

  lemma {:induction false} ListedUnitsConcat(pages: map<nat, PageState>, f: seq<nat>, g: seq<nat>)
    ensures S.ListedUnits(pages, f + g) == S.ListedUnits(pages, f) + S.ListedUnits(pages, g)
  {
    if f == [] {
      assert f + g == g;
    } else {
      assert (f + g)[1..] == f[1..] + g;
      ListedUnitsConcat(pages, f[1..], g);
    }
  }

  lemma AllKept(images: map<nat, PageImage>, pages: map<nat, PageState>)
    requires images.Keys == pages.Keys
    ensures KeepsUsed(images, images, pages)
  {
  }

  /** slob_page_alloc on a page in memory. */
  method TakeOn(im: PageImage, size: nat, align: nat, ghost page: PageState, ghost units: nat)
    returns (im': PageImage, o: Option<nat>)
    requires Stored(im, page, units) && page.free != [] && size >= 1
    ensures SameOutside(im.cells, im'.cells, page.free)
    ensures var t := Take(page.free, UnitsFor(size), align);
      && o == (if t.None? then None else Some(t.value.start))
      && Stored(im', if t.None? then page else TakenFrom(page, t.value, size), units)
  {
    var mem := new Page.Load(im, page.free);
    o := mem.Alloc(size, align);
    im' := mem.Save();
  }

  /** The in-page part of slob_free on a page in memory. */
  method FreeOn(im: PageImage, off: nat, size: nat, ghost page: PageState, ghost units: nat) returns (im': PageImage)
    requires Stored(im, page, units) && PageOk(page, units) && off in page.live && page.live[off] == size
    ensures SameOutside(im.cells, im'.cells, Freed(page, off).free)
    ensures Stored(im', Freed(page, off), units)
  {
    LiveIsOutside(page, units, off);
    var mem := new Page.Load(im, page.free);
    mem.Free(off, size);
    im' := mem.Save();
  }

  /** A page from the page allocator, made one free block, with a block taken from its start;
      the allocation cannot fail. */
  method FirstBlock(contents: seq<SlobIdx>, size: nat, align: nat) returns (im: PageImage)
    requires 2 <= |contents| <= MAX_UNITS && size >= 1 && UnitsFor(size) <= |contents|
    ensures Stored(im, PageState(Carve(Block(0, |contents|), 0, UnitsFor(size)), map[0 := size]), |contents|)
  {
    TakeFromFreshPage(|contents|, UnitsFor(size), align);
    var mem := new Page(contents);
    var b := mem.Alloc(size, align);
    assert b == Some(0);
    im := mem.Save();
  }
}
