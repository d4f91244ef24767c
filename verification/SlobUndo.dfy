/** What slob_free undoes, and in what order frees may come. */
module SlobUndo {
  import opened Options
  import opened FreeList
  import opened SlobSizes
  import opened SlobPageState
  import opened SlobState
  import opened SlobInvariant

  /** The same pages with the same free lists and live blocks, and the same bytes and pages in use. */
  ghost predicate SameMemory(h: Heap, k: Heap) {
    h.pages == k.pages && h.used == k.used && h.pcount == k.pcount
  }

  /** On a page: freeing the block that was just taken restores free list and live blocks. */
  lemma PageTakeThenFree(page: PageState, units: nat, size: nat, align: nat)
    requires PageOk(page, units) && size >= 1 && Take(page.free, UnitsFor(size), align).Some?
    ensures var t := Take(page.free, UnitsFor(size), align).value;
      var live := page.live[t.start := size];
      && t.start !in page.live
      && PageState(PutBack(t.rest, Block(t.start, UnitsFor(size))), live - {t.start}) == page
  {
    var t := Take(page.free, UnitsFor(size), align).value;
    StartNotLive(page, units, size, align);
    TakeThenPutBack(page.free, units, UnitsFor(size), align);
    assert page.live[t.start := size] - {t.start} == page.live;
  }

  lemma Restore(pages: map<nat, PageState>, p: nat, page: PageState)
    requires p in pages
    ensures pages[p := page][p := pages[p]] == pages
  {
  }

  lemma TakeFromThenFree(h: Heap, units: nat, p: nat, size: nat, align: nat)
    requires PagesOk(h.pages, units) && p in h.pages && size >= 1
    requires Take(h.pages[p].free, UnitsFor(size), align).Some?
    ensures var t := Take(h.pages[p].free, UnitsFor(size), align).value;
      var h' := TakeFrom(h, p, t, size);
      && h'.pages[p].live.Keys != {t.start}
      && Reinsert(h', p, t.start).pages == h.pages
  {
    var page := h.pages[p];
    var t := Take(page.free, UnitsFor(size), align).value;
    PageTakeThenFree(page, units, size, align);
    var o :| o in page.live;
    assert o in page.live[t.start := size] && o != t.start;
    Restore(h.pages, p, PageState(t.rest, page.live[t.start := size]));
  }

  /** The heap after the attempt succeeded, with the pages it changed. */
  lemma ServedThenFree(h: Heap, units: nat, size: nat, align: nat, h1: Heap, r: Pointer)
    requires Inv(h, units) && size >= 1 && UnitsFor(size) <= units && (h1, Some(r)) == Attempt(h, size, align)
    requires IsLive(h1, r)
    ensures h1.pages[r.page].live.Keys != {r.off} && Reinsert(h1, r.page, r.off).pages == h.pages
    ensures SizeAt(h1, r) == size && h1.used == h.used && h1.pcount == h.pcount
  {
    TakeFromThenFree(h, units, r.page, size, align);
  }

  lemma GrownThenFree(h: Heap, units: nat, size: nat, f: nat, h': Heap)
    requires UnitsFor(size) <= units && f !in h.pages
    requires h'.pages == Grow(h, units, f, size).pages && h'.used == h.used + size && h'.pcount == h.pcount + 1
    ensures h'.pages[f].live.Keys == {0} && SameMemory(Release(h', f, size), h)
  {
    assert h'.pages - {f} == h.pages;
  }

  lemma FreeOfServed(h: Heap, h1: Heap, h': Heap, units: nat, size: nat, r: Pointer)
    requires IsLive(h1, r) && PageOk(h1.pages[r.page], units) && SizeAt(h1, r) == size
    requires h1.pages[r.page].live.Keys != {r.off} && Reinsert(h1, r.page, r.off).pages == h.pages
    requires h'.pages == h1.pages && h'.used == h.used + size && h'.pcount == h.pcount
    ensures SameMemory(Free(h', units, r.page, r.off), h)
  {
    FreeCases(h', units, r.page, r.off);
  }

  /** Freeing the block that was just allocated restores every page, its free list included; a
      page that was obtained for it goes back. */
  lemma AllocThenFree(h: Heap, units: nat, size: nat, align: nat, grant: Option<nat>)
    requires Inv(h, units) && MayAlloc(h, units, size, grant)
    requires Alloc(h, units, size, align, grant).1.Some?
    ensures var (h', r) := Alloc(h, units, size, align, grant);
      IsLive(h', r.value) && SameMemory(Free(h', units, r.value.page, r.value.off), h)
  {
    var (h', r) := Alloc(h, units, size, align, grant);
    var (h1, r1) := Attempt(h, size, align);
    AllocEffect(h, units, size, align, grant);
    if r1.Some? {
      AttemptKeeps(h, units, size, align);
      ServedThenFree(h, units, size, align, h1, r1.value);
      FreeOfServed(h, h1, h', units, size, r1.value);
    } else {
      assert h1 == h;
      AllocKeepsInv(h, units, size, align, grant);
      GrownThenFree(h, units, size, grant.value, h');
      FreeCases(h', units, grant.value, 0);
    }
  }

  // ---------- frees in either order ----------

  lemma FreeListsCommute(page: PageState, units: nat, a: nat, b: nat)
    requires PageOk(page, units) && a in page.live && b in page.live && a != b
    ensures var x, y := Block(a, UnitsFor(page.live[a])), Block(b, UnitsFor(page.live[b]));
      PutBack(PutBack(page.free, x), y) == PutBack(PutBack(page.free, y), x)
  {
    LiveIsOutside(page, units, a);
    LiveIsOutside(page, units, b);
    PutBackCommutes(page.free, units, Block(a, UnitsFor(page.live[a])), Block(b, UnitsFor(page.live[b])));
  }

  /** On a page: two blocks may be freed in either order. */
  lemma FreedCommutes(page: PageState, units: nat, a: nat, b: nat)
    requires PageOk(page, units) && a in page.live && b in page.live && a != b
    ensures b in Freed(page, a).live && a in Freed(page, b).live
    ensures Freed(Freed(page, a), b) == Freed(Freed(page, b), a)
  {
    var x, y := Freed(page, a), Freed(page, b);
    assert x.live[b] == page.live[b] && y.live[a] == page.live[a];
    assert x.live - {b} == y.live - {a};
    assert Freed(x, b).free == Freed(y, a).free by {
      FreeListsCommute(page, units, a, b);
    }
  }

  lemma OnlyBlock(live: map<nat, nat>, off: nat)
    requires off in live
    ensures live - {off} == map[] <==> live.Keys == {off}
  {
    if live - {off} == map[] {
      forall o | o in live ensures o == off {
        assert o !in live - {off};
      }
    }
  }

  /** The pages with page p replaced, or gone when nothing is live on it. */
  ghost function Replace(pages: map<nat, PageState>, p: nat, page: PageState): map<nat, PageState> {
    if page.live == map[] then pages - {p} else pages[p := page]
  }

  lemma ReplaceCommutes(pages: map<nat, PageState>, p: nat, x: PageState, q: nat, y: PageState)
    requires p != q
    ensures Replace(Replace(pages, p, x), q, y) == Replace(Replace(pages, q, y), p, x)
  {
  }

  lemma ReplaceTwice(pages: map<nat, PageState>, p: nat, x: PageState, y: PageState)
    ensures Replace(Replace(pages, p, x), p, y) == Replace(pages, p, y)
  {
  }

  lemma FreeIs(h: Heap, units: nat, q: Pointer)
    requires IsLive(h, q) && PageOk(h.pages[q.page], units)
    ensures var h' := Free(h, units, q.page, q.off);
      && h'.pages == Replace(h.pages, q.page, Freed(h.pages[q.page], q.off))
      && h'.used == h.used - SizeAt(h, q)
  {
    FreeCases(h, units, q.page, q.off);
    OnlyBlock(h.pages[q.page].live, q.off);
  }

  /** The pages after two frees. */
  lemma TwoFrees(h: Heap, units: nat, a: Pointer, b: Pointer)
    requires Inv(h, units) && IsLive(h, a) && IsLive(h, b) && a != b
    ensures var h' := Free(h, units, a.page, a.off);
      && IsLive(h', b)
      && var h2 := Free(h', units, b.page, b.off);
      && Inv(h2, units) && h2.used == h.used - SizeAt(h, a) - SizeAt(h, b)
      && h2.pages == Replace(Replace(h.pages, a.page, Freed(h.pages[a.page], a.off)), b.page, Freed(h'.pages[b.page], b.off))
  {
    var h' := Free(h, units, a.page, a.off);
    FreeEffect(h, units, a.page, a.off);
    FreeKeepsInv(h, units, a.page, a.off);
    FreeKeepsInv(h', units, b.page, b.off);
    FreeIs(h, units, a);
    FreeIs(h', units, b);
  }

  lemma PageAfterFree(h: Heap, units: nat, a: Pointer, p: nat)
    requires IsLive(h, a) && PageOk(h.pages[a.page], units)
    ensures var h' := Free(h, units, a.page, a.off);
      && (p in h.pages && p != a.page ==> p in h'.pages && h'.pages[p] == h.pages[p])
      && (a.page in h'.pages ==> h'.pages[a.page] == Freed(h.pages[a.page], a.off))
  {
    FreeIs(h, units, a);
  }

  /** Two live blocks may be freed in either order: the pages, their free lists and what is in use
      come out the same. The page list a page ends up on may not; FirstFreeDecides says which it is. */
  lemma FreesCommute(h: Heap, units: nat, a: Pointer, b: Pointer)
    requires Inv(h, units) && IsLive(h, a) && IsLive(h, b) && a != b
    ensures var ha, hb := Free(h, units, a.page, a.off), Free(h, units, b.page, b.off);
      && IsLive(ha, b) && IsLive(hb, a)
      && SameMemory(Free(ha, units, b.page, b.off), Free(hb, units, a.page, a.off))
  {
    TwoFrees(h, units, a, b);
    TwoFrees(h, units, b, a);
    PageAfterFree(h, units, a, b.page);
    PageAfterFree(h, units, b, a.page);
    if a.page == b.page {
      var page := h.pages[a.page];
      FreedCommutes(page, units, a.off, b.off);
      ReplaceTwice(h.pages, a.page, Freed(page, a.off), Freed(Freed(page, a.off), b.off));
      ReplaceTwice(h.pages, a.page, Freed(page, b.off), Freed(Freed(page, b.off), a.off));
    } else {
      ReplaceCommutes(h.pages, a.page, Freed(h.pages[a.page], a.off), b.page, Freed(h.pages[b.page], b.off));
    }
  }

  /** A full page goes to the list for the size of the block that is freed first and stays there, if
      other blocks remain on it. */
  lemma FirstFreeDecides(h: Heap, units: nat, a: Pointer, b: Pointer, c: Pointer)
    requires Inv(h, units) && IsLive(h, a) && IsLive(h, b) && IsLive(h, c)
    requires a.page == b.page == c.page && a != b && a != c && b != c && Total(h.pages[a.page].free) == 0
    ensures var ha := Free(h, units, a.page, a.off);
      IsLive(ha, b) && Free(ha, units, b.page, b.off).lists == h.lists.Add(ClassOf(SizeAt(h, a)), a.page)
  {
    var ha := Free(h, units, a.page, a.off);
    FreeKeepsInv(h, units, a.page, a.off);
    FreeEffect(h, units, a.page, a.off);
    FreeCases(h, units, a.page, a.off);
    FreedHasUnits(h.pages[a.page], units, a.off);
    FreeCases(ha, units, b.page, b.off);
    assert IsLive(ha, c);
  }

  lemma FreedHasUnits(page: PageState, units: nat, off: nat)
    requires PageOk(page, units) && off in page.live
    ensures Total(Freed(page, off).free) > 0
  {
    PutBackTotal(page.free, Block(off, UnitsFor(page.live[off])));
  }
}
