/** What one call of slob_alloc or slob_free does to pages, lists and counters, with the sizes that
    decide written out: which page is tried, where the block is, which list a page joins or leaves, and
    what is counted. */
module SlobLaws {
  import opened Options
  import opened FreeList
  import opened SlobSizes
  import opened SlobPageState
  import opened SlobState
  import opened SlobInvariant
  import opened Sums

  // ---------- lists by size ----------

  /** The list for blocks of so many bytes. */
  function ListFor(lists: Lists, size: nat): seq<nat> {
    if size < 256 then lists.small else if size < 1024 then lists.medium else lists.large
  }

  /** The lists with that one replaced. */
  function WithList(lists: Lists, size: nat, list: seq<nat>): Lists {
    if size < 256 then Lists(list, lists.medium, lists.large)
    else if size < 1024 then Lists(lists.small, list, lists.large)
    else Lists(lists.small, lists.medium, list)
  }

  lemma ListForIs(lists: Lists, size: nat)
    ensures lists.For(ClassOf(size)) == ListFor(lists, size)
  {
  }

  /** A page is put in front of the list for its size. */
  lemma AddIs(lists: Lists, size: nat, p: nat)
    ensures lists.Add(ClassOf(size), p) == WithList(lists, size, [p] + ListFor(lists, size))
  {
  }

  lemma {:induction false} WithoutAt(list: seq<nat>, k: nat)
    requires k < |list| && multiset(list)[list[k]] == 1
    ensures Without(list, list[k]) == list[..k] + list[k + 1..]
  {
    var p, tail := list[k], list[1..];
    assert list == [list[0]] + tail;
    if k > 0 {
      assert tail[k - 1] == p;
      assert p in tail;
      WithoutAt(tail, k - 1);
      assert list[..k] + list[k + 1..] == [list[0]] + (tail[..k - 1] + tail[k..]);
    }
  }

  /** A page leaves the one list it is on, whatever its place there. */
  lemma RemoveIs(lists: Lists, size: nat, k: nat)
    requires k < |ListFor(lists, size)| && lists.Count(ListFor(lists, size)[k]) == 1
    ensures var list := ListFor(lists, size);
      lists.Remove(list[k]) == WithList(lists, size, list[..k] + list[k + 1..])
  {
    var list := ListFor(lists, size);
    var p := list[k];
    assert p in multiset(list);
    WithoutAt(list, k);
    if p !in lists.small { WithoutAbsent(lists.small, p); }
    if p !in lists.medium { WithoutAbsent(lists.medium, p); }
    if p !in lists.large { WithoutAbsent(lists.large, p); }
  }

  // ---------- slob_alloc ----------

  /** n units are free from s on, s is aligned, and no lower offset is like that. */
  ghost predicate LowestFit(free: seq<Block>, n: nat, align: nat, s: nat) {
    && Aligned(s, align) && FreeRun(free, s, n)
    && forall y: nat :: Aligned(y, align) && FreeRun(free, y, n) ==> s <= y
  }

  /** The first page with the fewest free units among those of its list that have enough is p, in
      place i, and on that page the lowest fit is s. */
  ghost predicate Found(h: Heap, size: nat, align: nat, i: int, p: nat, s: nat) {
    && FirstFewest(h.pages, ListFor(h.lists, size), (size + 1) / 2, i, p)
    && p in h.pages && LowestFit(h.pages[p].free, (size + 1) / 2, align, s)
  }

  ghost predicate NothingFound(h: Heap, size: nat, align: nat) {
    forall i, p, s :: !Found(h, size, align, i, p, s)
  }

  /** Page p as it is when a block of `size` bytes at s became live on it. */
  ghost predicate BlockAdded(page: PageState, page': PageState, size: nat, s: nat) {
    && page'.live == page.live[s := size]
    && forall u :: Covers(page'.free, u) <==> Covers(page.free, u) && !(s <= u < s + (size + 1) / 2)
  }

  /** The block is at s of page p; the page leaves its list if that filled it. */
  ghost predicate Served(h: Heap, h': Heap, r: Option<Pointer>, size: nat, i: int, p: nat, s: nat)
    requires 0 <= i < |ListFor(h.lists, size)| && p in h.pages
  {
    var list := ListFor(h.lists, size);
    && r == Some(Pointer(p, s))
    && h'.pages.Keys == h.pages.Keys && BlockAdded(h.pages[p], h'.pages[p], size, s)
    && (forall q :: q in h.pages && q != p ==> h'.pages[q] == h.pages[q])
    && h'.lists == (if Total(h.pages[p].free) == (size + 1) / 2 then WithList(h.lists, size, list[..i] + list[i + 1..])
                    else h.lists)
    && h'.used == h.used + size && h'.claimed == h.claimed && h'.pcount == h.pcount && h'.released == h.released
  }

  /** A new page f has the block at its start and is in front of its list, unless the block fills it. */
  ghost predicate Grown(h: Heap, h': Heap, r: Option<Pointer>, units: nat, size: nat, f: nat) {
    && r == Some(Pointer(f, 0))
    && h'.pages.Keys == h.pages.Keys + {f} && h'.pages[f].live == map[0 := size]
    && (forall u :: Covers(h'.pages[f].free, u) <==> (size + 1) / 2 <= u < units)
    && (forall q :: q in h.pages && q != f ==> h'.pages[q] == h.pages[q])
    && h'.lists == (if (size + 1) / 2 == units then h.lists else WithList(h.lists, size, [f] + ListFor(h.lists, size)))
    && h'.used == h.used + size && h'.claimed == h.claimed + 2 * units && h'.pcount == h.pcount + 1
    && h'.released == h.released
  }

  /** Nothing but the free counter has changed. */
  ghost predicate Refused(h: Heap, h': Heap, r: Option<Pointer>) {
    r == None && h' == h.(free := h'.free)
  }

  /** What slob_alloc does: it serves the request from the page it finds, if it finds one, and else from
      a new page, if the page allocator gives one. */
  ghost predicate Allocated(h: Heap, h': Heap, r: Option<Pointer>, units: nat, size: nat, align: nat, grant: Option<nat>) {
    && (forall i, p, s :: Found(h, size, align, i, p, s) ==> Served(h, h', r, size, i, p, s))
    && (NothingFound(h, size, align) ==>
          if grant.None? then Refused(h, h', r) else Grown(h, h', r, units, size, grant.value))
  }

  /** First fit gives the lowest fit, and none only if there is none. */
  lemma TakeFits(page: PageState, units: nat, n: nat, align: nat)
    requires PageOk(page, units) && n >= 1
    ensures var t := Take(page.free, n, align);
      && (t.None? ==> forall s: nat :: !LowestFit(page.free, n, align, s))
      && (t.Some? ==> LowestFit(page.free, n, align, t.value.start) && Total(page.free) == Total(t.value.rest) + n)
  {
    TakeIsLowestFit(page.free, units, n, align);
    if Take(page.free, n, align).Some? {
      TakeRemovesRun(page.free, units, n, align);
      TakeTotal(page.free, n, align);
    }
  }

  lemma TakeAdds(page: PageState, units: nat, size: nat, align: nat)
    requires PageOk(page, units) && size >= 1 && Take(page.free, UnitsFor(size), align).Some?
    ensures var t := Take(page.free, UnitsFor(size), align).value;
      BlockAdded(page, TakenFrom(page, t, size), size, t.start)
  {
    TakeRemovesRun(page.free, units, UnitsFor(size), align);
  }

  lemma FewestUnique(pages: map<nat, PageState>, list: seq<nat>, need: nat, i: int, b: nat, j: int, c: nat)
    requires FirstFewest(pages, list, need, i, b) && FirstFewest(pages, list, need, j, c)
    ensures i == j && b == c
  {
  }

  lemma FoundUnique(h: Heap, size: nat, align: nat, i: int, p: nat, s: nat, j: int, q: nat, y: nat)
    requires Found(h, size, align, i, p, s) && Found(h, size, align, j, q, y)
    ensures i == j && p == q && s == y
  {
    FewestUnique(h.pages, ListFor(h.lists, size), (size + 1) / 2, i, p, j, q);
  }

  /** The page that is tried, or none: with no page that has enough, or with no fit on the page tried,
      there is nothing to be found. */
  lemma TriedPage(h: Heap, units: nat, size: nat, align: nat) returns (i: int)
    requires PagesOk(h.pages, units) && size >= 1
    ensures var best := BestPage(h.pages, ListFor(h.lists, size), UnitsFor(size), None);
      if i < 0 then best.None? && NothingFound(h, size, align)
      else best.Some? && best.value in h.pages
           && FirstFewest(h.pages, ListFor(h.lists, size), (size + 1) / 2, i, best.value)
  {
    i := FindTriedPage(h.pages, ListFor(h.lists, size), UnitsFor(size));
  }

  lemma NoFitOnTried(h: Heap, size: nat, align: nat, n: nat, i: int, p: nat)
    requires n == (size + 1) / 2 && FirstFewest(h.pages, ListFor(h.lists, size), n, i, p) && p in h.pages
    requires forall s: nat :: !LowestFit(h.pages[p].free, n, align, s)
    ensures NothingFound(h, size, align)
  {
    forall j, q, s | Found(h, size, align, j, q, s) ensures false {
      FewestUnique(h.pages, ListFor(h.lists, size), n, i, p, j, q);
    }
  }

  /** The attempt serves the request from what is found, and does nothing if nothing is. */
  lemma AttemptIs(h: Heap, units: nat, size: nat, align: nat) returns (i: int, p: nat, t: Taken)
    requires PagesOk(h.pages, units) && size >= 1
    ensures i < 0 ==> Attempt(h, size, align) == (h, None) && NothingFound(h, size, align)
    ensures i >= 0 ==>
      && Found(h, size, align, i, p, t.start) && Take(h.pages[p].free, UnitsFor(size), align) == Some(t)
      && Attempt(h, size, align) == (TakeFrom(h, p, t, size), Some(Pointer(p, t.start)))
  {
    ListForIs(h.lists, size);
    i := TriedPage(h, units, size, align);
    p, t := 0, Taken(0, []);
    if i >= 0 {
      p := BestPage(h.pages, ListFor(h.lists, size), UnitsFor(size), None).value;
      TakeFits(h.pages[p], units, UnitsFor(size), align);
      var taken := Take(h.pages[p].free, UnitsFor(size), align);
      if taken.None? {
        NoFitOnTried(h, size, align, UnitsFor(size), i, p);
        i := -1;
      } else {
        t := taken.value;
      }
    }
  }

  /** The answer of the attempt on the best page. */
  ghost predicate AttemptAnswers(h: Heap, size: nat, align: nat, r: Option<Pointer>) {
    && (forall i, p, s :: Found(h, size, align, i, p, s) ==> r == Some(Pointer(p, s)))
    && (NothingFound(h, size, align) ==> r == None)
  }

  lemma AttemptAnswer(h: Heap, units: nat, size: nat, align: nat)
    requires PagesOk(h.pages, units) && size >= 1
    ensures AttemptAnswers(h, size, align, Attempt(h, size, align).1)
  {
    var i, p, t := AttemptIs(h, units, size, align);
    if i >= 0 {
      forall j, q, s | Found(h, size, align, j, q, s) ensures p == q && t.start == s {
        FoundUnique(h, size, align, i, p, t.start, j, q, s);
      }
    }
  }

  /** The heap after an attempt that succeeded, field by field. */
  lemma AfterAttempt(h: Heap, units: nat, size: nat, align: nat, grant: Option<nat>, p: nat, t: Taken)
    returns (h': Heap, r: Option<Pointer>)
    requires MayAlloc(h, units, size, grant) && p in h.pages
    requires Attempt(h, size, align) == (TakeFrom(h, p, t, size), Some(Pointer(p, t.start)))
    ensures (h', r) == Alloc(h, units, size, align, grant) && r == Some(Pointer(p, t.start))
    ensures h'.pages == h.pages[p := TakenFrom(h.pages[p], t, size)]
    ensures h'.lists == if Total(t.rest) == 0 then h.lists.Remove(p) else h.lists
    ensures h'.used == h.used + size && h'.claimed == h.claimed && h'.pcount == h.pcount && h'.released == h.released
  {
    var result := Alloc(h, units, size, align, grant);
    h', r := result.0, result.1;
  }

  lemma ServedLists(h: Heap, units: nat, size: nat, i: int, p: nat, t: Taken)
    requires ListsOk(h.pages, h.lists) && p in h.pages && size >= 1
    requires 0 <= i < |ListFor(h.lists, size)| && ListFor(h.lists, size)[i] == p
    requires Total(h.pages[p].free) == Total(t.rest) + (size + 1) / 2
    ensures var list := ListFor(h.lists, size);
      (if Total(t.rest) == 0 then h.lists.Remove(p) else h.lists) ==
      (if Total(h.pages[p].free) == (size + 1) / 2 then WithList(h.lists, size, list[..i] + list[i + 1..]) else h.lists)
  {
    assert FreeUnits(h.pages, p) > 0;
    RemoveIs(h.lists, size, i);
  }

  lemma ServedIs(h: Heap, units: nat, size: nat, align: nat, grant: Option<nat>, i: int, p: nat, t: Taken)
    requires Inv(h, units) && MayAlloc(h, units, size, grant)
    requires Found(h, size, align, i, p, t.start) && Take(h.pages[p].free, UnitsFor(size), align) == Some(t)
    requires Attempt(h, size, align) == (TakeFrom(h, p, t, size), Some(Pointer(p, t.start)))
    ensures var (h', r) := Alloc(h, units, size, align, grant); Served(h, h', r, size, i, p, t.start)
  {
    var h', r := AfterAttempt(h, units, size, align, grant, p, t);
    var page := h.pages[p];
    TakeAdds(page, units, size, align);
    TakeFits(page, units, UnitsFor(size), align);
    ServedLists(h, units, size, i, p, t);
    ServedFrom(h, h', r, size, i, p, t);
  }

  lemma ServedFrom(h: Heap, h': Heap, r: Option<Pointer>, size: nat, i: int, p: nat, t: Taken)
    requires 0 <= i < |ListFor(h.lists, size)| && p in h.pages && r == Some(Pointer(p, t.start))
    requires h'.pages == h.pages[p := TakenFrom(h.pages[p], t, size)]
    requires BlockAdded(h.pages[p], TakenFrom(h.pages[p], t, size), size, t.start)
    requires var list := ListFor(h.lists, size);
      h'.lists == if Total(h.pages[p].free) == (size + 1) / 2 then WithList(h.lists, size, list[..i] + list[i + 1..])
                  else h.lists
    requires h'.used == h.used + size && h'.claimed == h.claimed && h'.pcount == h.pcount && h'.released == h.released
    ensures Served(h, h', r, size, i, p, t.start)
  {
  }

  /** The heap after a page was added, field by field. */
  lemma AfterGrowth(h: Heap, units: nat, size: nat, align: nat, f: nat) returns (h': Heap, r: Option<Pointer>)
    requires MayAlloc(h, units, size, Some(f)) && Attempt(h, size, align) == (h, None)
    ensures (h', r) == Alloc(h, units, size, align, Some(f)) && r == Some(Pointer(f, 0))
    ensures var rest := Carve(Block(0, units), 0, UnitsFor(size));
      && h'.pages == h.pages[f := PageState(rest, map[0 := size])]
      && h'.lists == if Total(rest) == 0 then h.lists else h.lists.Add(ClassOf(size), f)
    ensures h'.used == h.used + size && h'.claimed == h.claimed + 2 * units && h'.pcount == h.pcount + 1
    ensures h'.released == h.released
  {
    var result := Alloc(h, units, size, align, Some(f));
    h', r := result.0, result.1;
  }

  lemma FreshCovers(units: nat, size: nat)
    requires size >= 1 && UnitsFor(size) <= units
    ensures forall u :: Covers(Carve(Block(0, units), 0, UnitsFor(size)), u) <==> (size + 1) / 2 <= u < units
  {
    var rest := Carve(Block(0, units), 0, UnitsFor(size));
    forall u ensures Covers(rest, u) <==> (size + 1) / 2 <= u < units {
      CarveCovers(Block(0, units), 0, UnitsFor(size), u);
    }
  }

  lemma GrownLists(lists: Lists, units: nat, size: nat, f: nat)
    requires size >= 1 && UnitsFor(size) <= units
    ensures (if Total(Carve(Block(0, units), 0, UnitsFor(size))) == 0 then lists else lists.Add(ClassOf(size), f)) ==
            (if (size + 1) / 2 == units then lists else WithList(lists, size, [f] + ListFor(lists, size)))
  {
    AddIs(lists, size, f);
    FreshPageOk(units, size);
  }

  lemma GrownIs(h: Heap, units: nat, size: nat, align: nat, f: nat)
    requires MayAlloc(h, units, size, Some(f)) && Attempt(h, size, align) == (h, None)
    ensures var (h', r) := Alloc(h, units, size, align, Some(f)); Grown(h, h', r, units, size, f)
  {
    var h', r := AfterGrowth(h, units, size, align, f);
    GrownLists(h.lists, units, size, f);
    FreshCovers(units, size);
    GrownFrom(h, h', r, units, size, f, Carve(Block(0, units), 0, UnitsFor(size)));
  }

  lemma GrownFrom(h: Heap, h': Heap, r: Option<Pointer>, units: nat, size: nat, f: nat, rest: seq<Block>)
    requires r == Some(Pointer(f, 0)) && h'.pages == h.pages[f := PageState(rest, map[0 := size])]
    requires forall u :: Covers(rest, u) <==> (size + 1) / 2 <= u < units
    requires h'.lists == if (size + 1) / 2 == units then h.lists
                         else WithList(h.lists, size, [f] + ListFor(h.lists, size))
    requires h'.used == h.used + size && h'.claimed == h.claimed + 2 * units && h'.pcount == h.pcount + 1
    requires h'.released == h.released
    ensures Grown(h, h', r, units, size, f)
  {
  }

  lemma AllocatedServed(h: Heap, h': Heap, r: Option<Pointer>, units: nat, size: nat, align: nat, grant: Option<nat>,
                        i: int, p: nat, s: nat)
    requires Found(h, size, align, i, p, s) && Served(h, h', r, size, i, p, s)
    ensures Allocated(h, h', r, units, size, align, grant)
  {
    forall j, q, y | Found(h, size, align, j, q, y) ensures j == i && q == p && y == s {
      FoundUnique(h, size, align, i, p, s, j, q, y);
    }
  }

  lemma AllocatedUnserved(h: Heap, h': Heap, r: Option<Pointer>, units: nat, size: nat, align: nat, grant: Option<nat>)
    requires NothingFound(h, size, align)
    requires if grant.None? then Refused(h, h', r) else Grown(h, h', r, units, size, grant.value)
    ensures Allocated(h, h', r, units, size, align, grant)
  {
  }

  lemma RefusedIs(h: Heap, units: nat, size: nat, align: nat)
    requires UnitsFor(size) <= units && Attempt(h, size, align) == (h, None)
    ensures var (h', r) := Alloc(h, units, size, align, None); Refused(h, h', r)
  {
  }

  /** slob_alloc does what it should, for every size, alignment and answer of the page allocator. */
  lemma AllocIs(h: Heap, units: nat, size: nat, align: nat, grant: Option<nat>)
    requires Inv(h, units) && MayAlloc(h, units, size, grant)
    ensures var (h', r) := Alloc(h, units, size, align, grant); Allocated(h, h', r, units, size, align, grant)
  {
    var (h', r) := Alloc(h, units, size, align, grant);
    var i, p, t := AttemptIs(h, units, size, align);
    if i >= 0 {
      ServedIs(h, units, size, align, grant, i, p, t);
      AllocatedServed(h, h', r, units, size, align, grant, i, p, t.start);
    } else {
      if grant.Some? { GrownIs(h, units, size, align, grant.value); } else { RefusedIs(h, units, size, align); }
      AllocatedUnserved(h, h', r, units, size, align, grant);
    }
  }

  // ---------- slob_free ----------

  /** The list without page p, if it is there. */
  ghost predicate Unlisted(list: seq<nat>, p: nat, list': seq<nat>) {
    if p in list then exists k :: 0 <= k < |list| && list[k] == p && list' == list[..k] + list[k + 1..] else list' == list
  }

  /** The page is gone, from its list too. */
  ghost predicate PageReleased(h: Heap, h': Heap, p: nat, size: nat) {
    && h'.pages == h.pages - {p}
    && Unlisted(h.lists.small, p, h'.lists.small) && Unlisted(h.lists.medium, p, h'.lists.medium)
    && Unlisted(h.lists.large, p, h'.lists.large)
    && h'.used == h.used - size && h'.claimed == h.claimed && h'.pcount == h.pcount - 1 && h'.free == h.free
    && h'.released == h.released + 1
  }

  /** Page p as it is when the block at `off`, of `size` bytes, is free. */
  ghost predicate BlockEnded(page: PageState, page': PageState, size: nat, off: nat) {
    && page'.live == page.live - {off}
    && forall u :: Covers(page'.free, u) <==> Covers(page.free, u) || off <= u < off + (size + 1) / 2
  }

  /** The block is free; the page is put in front of the list for the size of the block if it was full. */
  ghost predicate BlockReturned(h: Heap, h': Heap, p: nat, off: nat, size: nat)
    requires p in h.pages
  {
    && h'.pages.Keys == h.pages.Keys && BlockEnded(h.pages[p], h'.pages[p], size, off)
    && (forall q :: q in h.pages && q != p ==> h'.pages[q] == h.pages[q])
    && h'.lists == (if h.pages[p].free == [] then WithList(h.lists, size, [p] + ListFor(h.lists, size)) else h.lists)
    && h'.used == h.used - size && h'.claimed == h.claimed && h'.pcount == h.pcount && h'.free == h.free
    && h'.released == h.released
  }

  lemma UnlistedIs(list: seq<nat>, p: nat)
    requires multiset(list)[p] <= 1
    ensures Unlisted(list, p, Without(list, p))
  {
    if p in list {
      var k :| 0 <= k < |list| && list[k] == p;
      WithoutAt(list, k);
    } else {
      WithoutAbsent(list, p);
    }
  }

  lemma ReleasedIs(h: Heap, units: nat, p: nat, off: nat)
    requires Inv(h, units) && IsLive(h, Pointer(p, off)) && h.pages[p].live.Keys == {off}
    ensures PageReleased(h, Free(h, units, p, off), p, SizeAt(h, Pointer(p, off)))
  {
    FreeCases(h, units, p, off);
    assert h.lists.Count(p) <= 1;
    UnlistedIs(h.lists.small, p);
    UnlistedIs(h.lists.medium, p);
    UnlistedIs(h.lists.large, p);
  }

  lemma NoUnits(free: seq<Block>, limit: nat)
    requires Canonical(free, limit)
    ensures Total(free) == 0 <==> free == []
  {
  }

  lemma FreedEnds(page: PageState, units: nat, off: nat)
    requires PageOk(page, units) && off in page.live
    ensures BlockEnded(page, Freed(page, off), page.live[off], off)
  {
    LiveIsOutside(page, units, off);
    PutBackAddsRun(page.free, units, Block(off, UnitsFor(page.live[off])));
  }

  /** The heap after a block went back to its page, field by field. */
  lemma AfterReturn(h: Heap, units: nat, p: nat, off: nat) returns (h': Heap)
    requires IsLive(h, Pointer(p, off)) && PageOk(h.pages[p], units) && h.pages[p].live.Keys != {off}
    ensures h' == Free(h, units, p, off) && h'.pages == h.pages[p := Freed(h.pages[p], off)]
    ensures h'.lists == if Total(h.pages[p].free) == 0 then h.lists.Add(ClassOf(h.pages[p].live[off]), p) else h.lists
    ensures h'.used == h.used - h.pages[p].live[off] && h'.claimed == h.claimed && h'.pcount == h.pcount
    ensures h'.free == h.free && h'.released == h.released
  {
    FreeCases(h, units, p, off);
    h' := Free(h, units, p, off);
  }

  lemma ReturnedIs(h: Heap, units: nat, p: nat, off: nat)
    requires Inv(h, units) && IsLive(h, Pointer(p, off)) && h.pages[p].live.Keys != {off}
    ensures BlockReturned(h, Free(h, units, p, off), p, off, SizeAt(h, Pointer(p, off)))
  {
    var h' := AfterReturn(h, units, p, off);
    AddIs(h.lists, h.pages[p].live[off], p);
    NoUnits(h.pages[p].free, units);
    FreedEnds(h.pages[p], units, off);
    ReturnedFrom(h, h', p, off, h.pages[p].live[off], Freed(h.pages[p], off));
  }

  lemma ReturnedFrom(h: Heap, h': Heap, p: nat, off: nat, size: nat, page: PageState)
    requires p in h.pages && h'.pages == h.pages[p := page] && BlockEnded(h.pages[p], page, size, off)
    requires h'.lists == if h.pages[p].free == [] then WithList(h.lists, size, [p] + ListFor(h.lists, size)) else h.lists
    requires h'.used == h.used - size && h'.claimed == h.claimed && h'.pcount == h.pcount
    requires h'.free == h.free && h'.released == h.released
    ensures BlockReturned(h, h', p, off, size)
  {
  }

  /** slob_free does what it should, for every live block. */
  lemma FreeIs(h: Heap, units: nat, p: nat, off: nat)
    requires Inv(h, units) && IsLive(h, Pointer(p, off))
    ensures var h', size := Free(h, units, p, off), SizeAt(h, Pointer(p, off));
      if h.pages[p].live.Keys == {off} then PageReleased(h, h', p, size) else BlockReturned(h, h', p, off, size)
  {
    if h.pages[p].live.Keys == {off} {
      ReleasedIs(h, units, p, off);
    } else {
      ReturnedIs(h, units, p, off);
    }
  }
}
