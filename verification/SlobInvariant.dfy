/** What slob_alloc and slob_free keep, call by call. */
module SlobInvariant {
  import opened Options
  import opened FreeList
  import opened SlobSizes
  import opened SlobPageState
  import opened SlobState
  import opened Sums

  /** Every slob page is partitioned into free and live blocks, with at least one live block. */
  ghost predicate PagesOk(pages: map<nat, PageState>, units: nat) {
    forall p :: p in pages ==> PageOk(pages[p], units) && HasLive(pages[p])
  }

  /** A page is on exactly one list, once, if it has free units, and on none otherwise. */
  ghost predicate ListsOk(pages: map<nat, PageState>, lists: Lists) {
    forall p: nat :: lists.Count(p) == if FreeUnits(pages, p) > 0 then 1 else 0
  }

  ghost function LiveBytes(pages: map<nat, PageState>): map<nat, int> {
    map p | p in pages :: Sum(pages[p].live)
  }

  /** PAGE_SIZE for each page. */
  ghost function PageBytes(pages: map<nat, PageState>, units: nat): map<nat, int> {
    map p | p in pages :: BytesIn(units)
  }

  /** The counters are exact once `pending` bytes are added to those in use. */
  ghost predicate CountersAre(h: Heap, units: nat, pending: int) {
    && h.pcount == |h.pages|
    && h.used + pending == Sum(LiveBytes(h.pages))
    && h.claimed == Sum(PageBytes(h.pages, units)) + Times(h.released, BytesIn(units))
  }

  ghost predicate CountersOk(h: Heap, units: nat) {
    CountersAre(h, units, 0)
  }

  ghost predicate Inv(h: Heap, units: nat) {
    PagesOk(h.pages, units) && ListsOk(h.pages, h.lists) && CountersOk(h, units)
  }

  // ---------- lists ----------

  lemma {:induction false} WithoutCount(list: seq<nat>, p: nat, q: nat)
    ensures multiset(Without(list, p))[q] == if q == p && p in list then multiset(list)[q] - 1 else multiset(list)[q]
  {
    if list != [] {
      var tail := list[1..];
      assert list == [list[0]] + tail;
      WithoutCount(tail, p, q);
    }
  }

  lemma RemoveCount(lists: Lists, p: nat, q: nat)
    requires lists.Count(p) <= 1
    ensures lists.Remove(p).Count(q) == if q == p then 0 else lists.Count(q)
  {
    WithoutCount(lists.small, p, q);
    WithoutCount(lists.medium, p, q);
    WithoutCount(lists.large, p, q);
  }

  lemma AddCount(lists: Lists, c: SizeClass, p: nat, q: nat)
    ensures lists.Add(c, p).Count(q) == lists.Count(q) + if q == p then 1 else 0
  {
  }

  lemma {:induction false} WithoutAbsent(list: seq<nat>, p: nat)
    requires p !in list
    ensures Without(list, p) == list
  {
    if list != [] {
      WithoutAbsent(list[1..], p);
      assert list == [list[0]] + list[1..];
    }
  }

  /** A page that leaves the list it was just added to. */
  lemma AddThenRemove(lists: Lists, c: SizeClass, p: nat)
    requires lists.Count(p) == 0
    ensures lists.Add(c, p).Remove(p) == lists
  {
    WithoutAbsent(lists.small, p);
    WithoutAbsent(lists.medium, p);
    WithoutAbsent(lists.large, p);
  }

  /** A page that is not listed and gets free units is added; one that runs out is removed. */
  lemma ListsOkUpdate(pages: map<nat, PageState>, lists: Lists, p: nat, page: PageState, lists': Lists)
    requires ListsOk(pages, lists)
    requires forall q: nat :: q != p ==> lists'.Count(q) == lists.Count(q)
    requires lists'.Count(p) == if Total(page.free) > 0 then 1 else 0
    ensures ListsOk(pages[p := page], lists')
  {
  }

  lemma ListsOkRemove(pages: map<nat, PageState>, lists: Lists, p: nat)
    requires ListsOk(pages, lists)
    ensures ListsOk(pages - {p}, lists.Remove(p))
  {
    forall q: nat ensures lists.Remove(p).Count(q) == if FreeUnits(pages - {p}, q) > 0 then 1 else 0 {
      RemoveCount(lists, p, q);
    }
  }

  // ---------- the page that is tried ----------

  /** Page b at position i of the list is the first one with the fewest free units among the
      pages of the list that have at least `need`. */
  ghost predicate FirstFewest(pages: map<nat, PageState>, list: seq<nat>, need: nat, i: int, b: nat) {
    && 0 <= i < |list| && b == list[i] && FreeUnits(pages, b) >= need
    && (forall j :: 0 <= j < |list| && FreeUnits(pages, list[j]) >= need ==> FreeUnits(pages, b) <= FreeUnits(pages, list[j]))
    && (forall j :: 0 <= j < i && FreeUnits(pages, list[j]) >= need ==> FreeUnits(pages, b) < FreeUnits(pages, list[j]))
  }

  /** No page of the list has at least `need` but fewer than `best` units. */
  ghost predicate NoneBetter(pages: map<nat, PageState>, list: seq<nat>, need: nat, best: nat) {
    forall j :: 0 <= j < |list| && FreeUnits(pages, list[j]) >= need ==> best <= FreeUnits(pages, list[j])
  }

  lemma FirstFewestTail(pages: map<nat, PageState>, list: seq<nat>, need: nat, i: int, b: nat)
    requires list != [] && FirstFewest(pages, list[1..], need, i, b)
    requires FreeUnits(pages, list[0]) >= need ==> FreeUnits(pages, b) < FreeUnits(pages, list[0])
    ensures FirstFewest(pages, list, need, i + 1, b)
  {
    assert forall j :: 0 < j < |list| ==> list[1..][j - 1] == list[j];
  }

  /** With a choice already made, it stands unless the rest of the list has a page with fewer. */
  lemma {:induction false} BestPageBeats(pages: map<nat, PageState>, list: seq<nat>, need: nat, best: nat) returns (i: int)
    requires FreeUnits(pages, best) >= need
    ensures var r := BestPage(pages, list, need, Some(best));
      && r.Some?
      && (i < 0 ==> r == Some(best) && NoneBetter(pages, list, need, FreeUnits(pages, best)))
      && (i >= 0 ==> FirstFewest(pages, list, need, i, r.value) && FreeUnits(pages, r.value) < FreeUnits(pages, best))
  {
    if list == [] {
      i := -1;
    } else {
      var sp, tail := list[0], list[1..];
      var better := need <= FreeUnits(pages, sp) < FreeUnits(pages, best);
      i := BestPageBeats(pages, tail, need, if better then sp else best);
      var r := BestPage(pages, list, need, Some(best)).value;
      assert forall j :: 0 < j < |list| ==> tail[j - 1] == list[j];
      if i >= 0 {
        FirstFewestTail(pages, list, need, i, r);
        i := i + 1;
      } else if better {
        i := 0;
      }
    }
  }

  lemma {:induction false} FindTriedPage(pages: map<nat, PageState>, list: seq<nat>, need: nat) returns (i: int)
    ensures var r := BestPage(pages, list, need, None);
      && (i < 0 ==> r == None && forall j :: 0 <= j < |list| ==> FreeUnits(pages, list[j]) < need)
      && (i >= 0 ==> r.Some? && FirstFewest(pages, list, need, i, r.value))
  {
    if list == [] {
      i := -1;
    } else {
      var sp, tail := list[0], list[1..];
      assert forall j :: 0 < j < |list| ==> tail[j - 1] == list[j];
      if FreeUnits(pages, sp) < need {
        i := FindTriedPage(pages, tail, need);
      } else {
        i := BestPageBeats(pages, tail, need, sp);
      }
      if i >= 0 {
        FirstFewestTail(pages, list, need, i, BestPage(pages, list, need, None).value);
        i := i + 1;
      } else if FreeUnits(pages, sp) >= need {
        i := 0;
      }
    }
  }

  /** The page slob_alloc tries is the first one with the fewest free units among the pages of
      the list that have enough, and it tries none exactly when no page of the list has enough. */
  lemma TriedPageIsBestFit(pages: map<nat, PageState>, list: seq<nat>, need: nat)
    ensures var r := BestPage(pages, list, need, None);
      if (forall j :: 0 <= j < |list| ==> FreeUnits(pages, list[j]) < need) then r == None
      else r.Some? && exists i :: FirstFewest(pages, list, need, i, r.value)
  {
    var i := FindTriedPage(pages, list, need);
  }

  // ---------- one call ----------

  lemma LiveBytesChange(pages: map<nat, PageState>, p: nat, page: PageState)
    requires p in pages
    ensures Sum(LiveBytes(pages[p := page])) == Sum(LiveBytes(pages)) - Sum(pages[p].live) + Sum(page.live)
  {
    assert LiveBytes(pages[p := page]) == LiveBytes(pages)[p := Sum(page.live)];
    SumUpdate(LiveBytes(pages), p, Sum(page.live));
  }

  lemma LiveBytesAdd(pages: map<nat, PageState>, p: nat, page: PageState)
    requires p !in pages
    ensures Sum(LiveBytes(pages[p := page])) == Sum(LiveBytes(pages)) + Sum(page.live)
  {
    assert LiveBytes(pages[p := page]) == LiveBytes(pages)[p := Sum(page.live)];
    SumAdd(LiveBytes(pages), p, Sum(page.live));
  }

  lemma LiveBytesRemove(pages: map<nat, PageState>, p: nat)
    requires p in pages
    ensures Sum(LiveBytes(pages - {p})) == Sum(LiveBytes(pages)) - Sum(pages[p].live)
  {
    SumRemove(LiveBytes(pages), p);
    assert LiveBytes(pages - {p}) == LiveBytes(pages) - {p};
  }

  lemma PageChange(pages: map<nat, PageState>, units: nat, p: nat, page: PageState)
    requires p in pages
    ensures |pages[p := page]| == |pages| && PageBytes(pages[p := page], units) == PageBytes(pages, units)
  {
    assert pages[p := page].Keys == pages.Keys;
  }

  lemma PageAdd(pages: map<nat, PageState>, units: nat, p: nat, page: PageState)
    requires p !in pages
    ensures |pages[p := page]| == |pages| + 1
    ensures Sum(PageBytes(pages[p := page], units)) == Sum(PageBytes(pages, units)) + BytesIn(units)
  {
    assert pages[p := page].Keys == pages.Keys + {p};
    assert PageBytes(pages[p := page], units) == PageBytes(pages, units)[p := BytesIn(units)];
    SumAdd(PageBytes(pages, units), p, BytesIn(units));
  }

  lemma PageRemove(pages: map<nat, PageState>, units: nat, p: nat)
    requires p in pages
    ensures |pages - {p}| == |pages| - 1
    ensures Sum(PageBytes(pages - {p}, units)) == Sum(PageBytes(pages, units)) - BytesIn(units)
  {
    assert (pages - {p}).Keys == pages.Keys - {p};
    assert PageBytes(pages - {p}, units) == PageBytes(pages, units) - {p};
    SumRemove(PageBytes(pages, units), p);
  }

  lemma PagesOkUpdate(pages: map<nat, PageState>, units: nat, p: nat, page: PageState)
    requires PagesOk(pages, units) && PageOk(page, units) && HasLive(page)
    ensures PagesOk(pages[p := page], units)
  {
  }

  /** Taking a block from a page keeps pages and lists in order. */
  lemma TakeFromKeeps(h: Heap, units: nat, p: nat, size: nat, align: nat)
    requires PagesOk(h.pages, units) && ListsOk(h.pages, h.lists) && p in h.pages && size >= 1
    requires Take(h.pages[p].free, UnitsFor(size), align).Some?
    ensures var t := Take(h.pages[p].free, UnitsFor(size), align).value;
      var h' := TakeFrom(h, p, t, size);
      t.start !in h.pages[p].live && PagesOk(h'.pages, units) && ListsOk(h'.pages, h'.lists)
  {
    var page := h.pages[p];
    var t := Take(page.free, UnitsFor(size), align).value;
    var page' := PageState(t.rest, page.live[t.start := size]);
    TakeKeepsPageOk(page, units, size, align);
    assert t.start in page'.live;
    PagesOkUpdate(h.pages, units, p, page');
    TakeTotal(page.free, UnitsFor(size), align);
    forall q: nat ensures h.lists.Remove(p).Count(q) == if q == p then 0 else h.lists.Count(q) {
      RemoveCount(h.lists, p, q);
    }
    ListsOkUpdate(h.pages, h.lists, p, page', TakeFrom(h, p, t, size).lists);
  }

  lemma TakeFromCounters(h: Heap, units: nat, p: nat, t: Taken, size: nat)
    requires CountersOk(h, units) && p in h.pages && t.start !in h.pages[p].live
    ensures var h' := TakeFrom(h, p, t, size); CountersAre(h', units, size)
  {
    var live := h.pages[p].live;
    var page := PageState(t.rest, live[t.start := size]);
    LiveBytesChange(h.pages, p, page);
    PageChange(h.pages, units, p, page);
    SumAdd(live, t.start, size);
  }

  /** A new page with its first block keeps pages and lists in order. */
  lemma GrowKeeps(h: Heap, units: nat, f: nat, size: nat)
    requires PagesOk(h.pages, units) && ListsOk(h.pages, h.lists) && f !in h.pages
    requires size >= 1 && UnitsFor(size) <= units
    ensures var h' := Grow(h, units, f, size);
      PagesOk(h'.pages, units) && ListsOk(h'.pages, h'.lists)
  {
    var page := PageState(Carve(Block(0, units), 0, UnitsFor(size)), map[0 := size]);
    FreshPageOk(units, size);
    PagesOkUpdate(h.pages, units, f, page);
    forall q: nat ensures h.lists.Add(ClassOf(size), f).Count(q) == h.lists.Count(q) + if q == f then 1 else 0 {
      AddCount(h.lists, ClassOf(size), f, q);
    }
    ListsOkUpdate(h.pages, h.lists, f, page, Grow(h, units, f, size).lists);
  }

  lemma GrowCounters(h: Heap, units: nat, f: nat, size: nat)
    requires CountersOk(h, units) && f !in h.pages && UnitsFor(size) <= units
    ensures var h' := Grow(h, units, f, size); CountersAre(h', units, size)
  {
    var page := PageState(Carve(Block(0, units), 0, UnitsFor(size)), map[0 := size]);
    LiveBytesAdd(h.pages, f, page);
    PageAdd(h.pages, units, f, page);
    var none: map<nat, nat> := map[];
    SumAdd(none, 0, size);
    assert page.live == none[0 := size];
  }

  predicate MayAlloc(h: Heap, units: nat, size: nat, grant: Option<nat>) {
    1 <= size && UnitsFor(size) <= units && (grant.Some? ==> grant.value !in h.pages)
  }

  predicate IsLive(h: Heap, q: Pointer) {
    q.page in h.pages && q.off in h.pages[q.page].live
  }

  function SizeAt(h: Heap, q: Pointer): nat
    requires IsLive(h, q)
  {
    h.pages[q.page].live[q.off]
  }

  /** The attempt takes a block from a listed page and keeps pages and lists in order, or does nothing. */
  lemma AttemptKeeps(h: Heap, units: nat, size: nat, align: nat)
    requires PagesOk(h.pages, units) && ListsOk(h.pages, h.lists) && size >= 1
    ensures var (h', r) := Attempt(h, size, align);
      && PagesOk(h'.pages, units) && ListsOk(h'.pages, h'.lists)
      && (r.None? ==> h' == h)
  {
    var best := BestPage(h.pages, h.lists.For(ClassOf(size)), UnitsFor(size), None);
    if best.Some? && best.value in h.pages && Take(h.pages[best.value].free, UnitsFor(size), align).Some? {
      TakeFromKeeps(h, units, best.value, size, align);
    }
  }

  lemma StartNotLive(p: PageState, units: nat, size: nat, align: nat)
    requires PageOk(p, units) && size >= 1 && Take(p.free, UnitsFor(size), align).Some?
    ensures Take(p.free, UnitsFor(size), align).value.start !in p.live
  {
    TakeKeepsPageOk(p, units, size, align);
  }

  /** The page and the block of an attempt that succeeded. */
  lemma AttemptTakes(h: Heap, size: nat, align: nat) returns (p: nat, t: Taken)
    requires Attempt(h, size, align).1.Some?
    ensures p in h.pages && Take(h.pages[p].free, UnitsFor(size), align) == Some(t)
    ensures Attempt(h, size, align) == (TakeFrom(h, p, t, size), Some(Pointer(p, t.start)))
  {
    p := BestPage(h.pages, h.lists.For(ClassOf(size)), UnitsFor(size), None).value;
    t := Take(h.pages[p].free, UnitsFor(size), align).value;
  }

  lemma AttemptCounters(h: Heap, units: nat, size: nat, align: nat)
    requires PagesOk(h.pages, units) && CountersOk(h, units) && size >= 1 && Attempt(h, size, align).1.Some?
    ensures var h' := Attempt(h, size, align).0; CountersAre(h', units, size)
  {
    var p, t := AttemptTakes(h, size, align);
    StartNotLive(h.pages[p], units, size, align);
    TakeFromCounters(h, units, p, t, size);
  }

  lemma SettleServed(h1: Heap, r: Option<Pointer>, units: nat, size: nat, grant: Option<nat>)
    requires PagesOk(h1.pages, units) && ListsOk(h1.pages, h1.lists) && CountersAre(h1, units, size)
    requires r.Some? && UnitsFor(size) <= units
    ensures Inv(Settle(h1, r, units, size, grant).0, units)
  {
  }

  lemma SettleUnserved(h: Heap, units: nat, size: nat, grant: Option<nat>)
    requires Inv(h, units) && MayAlloc(h, units, size, grant)
    ensures Inv(Settle(h, None, units, size, grant).0, units)
  {
    var h2 := h.(free := ListedUnits(h.pages, h.lists.All()));
    assert CountersOk(h2, units);
    if grant.Some? {
      GrowKeeps(h2, units, grant.value, size);
      GrowCounters(h2, units, grant.value, size);
    }
  }

  lemma AllocServed(h: Heap, units: nat, size: nat, align: nat, grant: Option<nat>, h1: Heap, r: Option<Pointer>)
    requires Inv(h, units) && MayAlloc(h, units, size, grant)
    requires (h1, r) == Attempt(h, size, align) && r.Some?
    ensures Inv(Settle(h1, r, units, size, grant).0, units)
  {
    AttemptKeeps(h, units, size, align);
    AttemptCounters(h, units, size, align);
    SettleServed(h1, r, units, size, grant);
  }

  /** slob_alloc keeps the invariant. */
  lemma AllocKeepsInv(h: Heap, units: nat, size: nat, align: nat, grant: Option<nat>)
    requires Inv(h, units) && MayAlloc(h, units, size, grant)
    ensures Inv(Alloc(h, units, size, align, grant).0, units)
  {
    var (h1, r) := Attempt(h, size, align);
    if r.Some? {
      AllocServed(h, units, size, align, grant, h1, r);
    } else {
      assert h1 == h;
      SettleUnserved(h, units, size, grant);
    }
  }

  /** The block taken from page p is aligned and was not live. */
  lemma AttemptPointer(h: Heap, units: nat, size: nat, align: nat)
    requires PagesOk(h.pages, units) && size >= 1
    ensures var (h', r) := Attempt(h, size, align);
      r.Some? ==>
        && r.value.page in h.pages && r.value.off !in h.pages[r.value.page].live
        && Aligned(r.value.off, align)
        && h'.pages.Keys == h.pages.Keys
        && h'.pages[r.value.page].live == h.pages[r.value.page].live[r.value.off := size]
        && (forall q :: q in h.pages && q != r.value.page ==> h'.pages[q] == h.pages[q])
  {
    var (h', r) := Attempt(h, size, align);
    if r.Some? {
      var p := r.value.page;
      TakeRemovesRun(h.pages[p].free, units, UnitsFor(size), align);
      TakeKeepsPageOk(h.pages[p], units, size, align);
    }
  }

  /** Blocks after `r` was added with `size`: it was not live and no other block changed. */
  ghost predicate OnlyAdds(h: Heap, h': Heap, r: Option<Pointer>, size: nat) {
    && (r.Some? ==> !IsLive(h, r.value) && IsLive(h', r.value) && SizeAt(h', r.value) == size)
    && (forall q :: IsLive(h', q) <==> IsLive(h, q) || r == Some(q))
    && (forall q :: IsLive(h, q) ==> SizeAt(h', q) == SizeAt(h, q))
  }

  lemma SettleAdds(h: Heap, h1: Heap, r: Option<Pointer>, units: nat, size: nat, grant: Option<nat>)
    requires MayAlloc(h, units, size, grant) && OnlyAdds(h, h1, r, size)
    requires r.None? ==> h1.pages == h.pages
    ensures var (h', r') := Settle(h1, r, units, size, grant); OnlyAdds(h, h', r', size)
  {
  }

  lemma PageAdds(h: Heap, h1: Heap, q: Pointer, size: nat)
    requires q.page in h.pages && q.off !in h.pages[q.page].live && h1.pages.Keys == h.pages.Keys
    requires h1.pages[q.page].live == h.pages[q.page].live[q.off := size]
    requires forall p :: p in h.pages && p != q.page ==> h1.pages[p] == h.pages[p]
    ensures OnlyAdds(h, h1, Some(q), size)
  {
  }

  lemma AttemptAdds(h: Heap, units: nat, size: nat, align: nat)
    requires PagesOk(h.pages, units) && size >= 1
    ensures var (h1, r) := Attempt(h, size, align);
      OnlyAdds(h, h1, r, size) && (r.Some? ==> Aligned(r.value.off, align))
  {
    var (h1, r) := Attempt(h, size, align);
    AttemptPointer(h, units, size, align);
    if r.Some? {
      PageAdds(h, h1, r.value, size);
    } else {
      assert h1 == h;
    }
  }

  /** The block slob_alloc returns is aligned and was not live; it is live now with the size asked
      for, and no other block comes, goes or changes its size. NULL is returned only when the page
      allocator gave no page. */
  lemma AllocEffect(h: Heap, units: nat, size: nat, align: nat, grant: Option<nat>)
    requires Inv(h, units) && MayAlloc(h, units, size, grant)
    ensures var (h', r) := Alloc(h, units, size, align, grant);
      && OnlyAdds(h, h', r, size)
      && (r.Some? ==> Aligned(r.value.off, align))
      && (grant.Some? ==> r.Some?)
  {
    var (h1, r) := Attempt(h, size, align);
    AttemptAdds(h, units, size, align);
    AttemptKeeps(h, units, size, align);
    SettleAdds(h, h1, r, units, size, grant);
    assert Aligned(0, align);
  }

  /** The page of a freed block that is not the last one on it. */
  lemma ReinsertKeeps(h: Heap, units: nat, p: nat, off: nat)
    requires PagesOk(h.pages, units) && ListsOk(h.pages, h.lists) && IsLive(h, Pointer(p, off))
    requires h.pages[p].live.Keys != {off}
    ensures var h' := Reinsert(h, p, off); PagesOk(h'.pages, units) && ListsOk(h'.pages, h'.lists)
  {
    var page := h.pages[p];
    FreedOk(page, units, off);
    PagesOkUpdate(h.pages, units, p, Freed(page, off));
    ReinsertLists(h.pages, h.lists, p, Freed(page, off), ClassOf(page.live[off]));
  }

  lemma FreedOk(page: PageState, units: nat, off: nat)
    requires PageOk(page, units) && off in page.live && page.live.Keys != {off}
    ensures PageOk(Freed(page, off), units) && HasLive(Freed(page, off)) && Total(Freed(page, off).free) > 0
  {
    PutBackKeepsPageOk(page, units, off);
    PutBackTotal(page.free, Block(off, UnitsFor(page.live[off])));
    var o :| o in page.live && o != off;
    assert o in Freed(page, off).live;
  }

  lemma ReinsertLists(pages: map<nat, PageState>, lists: Lists, p: nat, page: PageState, c: SizeClass)
    requires ListsOk(pages, lists) && p in pages && Total(page.free) > 0
    ensures ListsOk(pages[p := page], if Total(pages[p].free) == 0 then lists.Add(c, p) else lists)
  {
    forall q: nat ensures lists.Add(c, p).Count(q) == lists.Count(q) + if q == p then 1 else 0 {
      AddCount(lists, c, p, q);
    }
    ListsOkUpdate(pages, lists, p, page, if Total(pages[p].free) == 0 then lists.Add(c, p) else lists);
  }

  lemma ReinsertCounters(h: Heap, units: nat, p: nat, off: nat)
    requires CountersOk(h, units) && IsLive(h, Pointer(p, off))
    ensures CountersOk(Reinsert(h, p, off), units)
  {
    var page := h.pages[p];
    var page' := PageState(PutBack(page.free, Block(off, UnitsFor(page.live[off]))), page.live - {off});
    SumRemove(page.live, off);
    LiveBytesChange(h.pages, p, page');
    PageChange(h.pages, units, p, page');
  }

  lemma ReleaseCounters(h: Heap, units: nat, p: nat, off: nat)
    requires CountersOk(h, units) && IsLive(h, Pointer(p, off)) && h.pages[p].live.Keys == {off}
    ensures CountersOk(Release(h, p, h.pages[p].live[off]), units)
  {
    var live := h.pages[p].live;
    SumRemove(live, off);
    assert live - {off} == map[];
    LiveBytesRemove(h.pages, p);
    PageRemove(h.pages, units, p);
    assert Times(h.released + 1, BytesIn(units)) == BytesIn(units) + Times(h.released, BytesIn(units));
  }

  /** The page is released exactly when the block is the last live one on it. */
  lemma FreeCases(h: Heap, units: nat, p: nat, off: nat)
    requires IsLive(h, Pointer(p, off)) && PageOk(h.pages[p], units)
    ensures Free(h, units, p, off) ==
      if h.pages[p].live.Keys == {off} then Release(h, p, h.pages[p].live[off]) else Reinsert(h, p, off)
  {
    LastBlockTest(h.pages[p], units, off);
  }

  lemma ReleaseKeepsInv(h: Heap, units: nat, p: nat, off: nat)
    requires Inv(h, units) && IsLive(h, Pointer(p, off)) && h.pages[p].live.Keys == {off}
    ensures Inv(Release(h, p, h.pages[p].live[off]), units)
  {
    ListsOkRemove(h.pages, h.lists, p);
    ReleaseCounters(h, units, p, off);
  }

  /** slob_free keeps the invariant. */
  lemma FreeKeepsInv(h: Heap, units: nat, p: nat, off: nat)
    requires Inv(h, units) && IsLive(h, Pointer(p, off))
    ensures Inv(Free(h, units, p, off), units)
  {
    FreeCases(h, units, p, off);
    if h.pages[p].live.Keys == {off} {
      ReleaseKeepsInv(h, units, p, off);
    } else {
      ReinsertKeeps(h, units, p, off);
      ReinsertCounters(h, units, p, off);
    }
  }

  /** Blocks after the one at `d` ended: no other block changed. */
  ghost predicate OnlyEnds(h: Heap, h': Heap, d: Pointer) {
    && (forall q :: IsLive(h', q) <==> IsLive(h, q) && q != d)
    && (forall q :: IsLive(h', q) ==> SizeAt(h', q) == SizeAt(h, q))
  }

  lemma ReinsertEnds(h: Heap, p: nat, off: nat)
    requires IsLive(h, Pointer(p, off))
    ensures OnlyEnds(h, Reinsert(h, p, off), Pointer(p, off))
  {
  }

  lemma ReleaseEnds(h: Heap, p: nat, off: nat, size: nat)
    requires IsLive(h, Pointer(p, off)) && h.pages[p].live.Keys == {off}
    ensures OnlyEnds(h, Release(h, p, size), Pointer(p, off))
  {
  }

  /** slob_free ends exactly the block it is given, and its page goes back to the page allocator
      exactly when that was the last live block on it. */
  lemma FreeEffect(h: Heap, units: nat, p: nat, off: nat)
    requires Inv(h, units) && IsLive(h, Pointer(p, off))
    ensures OnlyEnds(h, Free(h, units, p, off), Pointer(p, off))
    ensures p !in Free(h, units, p, off).pages <==> h.pages[p].live.Keys == {off}
  {
    FreeCases(h, units, p, off);
    if h.pages[p].live.Keys == {off} {
      ReleaseEnds(h, p, off, h.pages[p].live[off]);
    } else {
      ReinsertEnds(h, p, off);
    }
  }
}
