/** Whole runs of slob_alloc and slob_free. */
module SlobRuns {
  import opened Options
  import opened FreeList
  import opened SlobSizes
  import opened SlobPageState
  import opened SlobState
  import opened SlobInvariant
  import opened Sums

  datatype Call = AllocCall(size: nat, align: nat, grant: Option<nat>) | FreeCall(q: Pointer)

  /** Sizes fit a page, the page allocator gives pages that are not slob pages, and only live
      blocks are freed. */
  predicate MayCall(h: Heap, units: nat, c: Call) {
    match c
    case AllocCall(size, _, grant) => MayAlloc(h, units, size, grant)
    case FreeCall(q) => IsLive(h, q)
  }

  function Step(h: Heap, units: nat, c: Call): Heap
    requires MayCall(h, units, c)
  {
    match c
    case AllocCall(size, align, grant) => Alloc(h, units, size, align, grant).0
    case FreeCall(q) => Free(h, units, q.page, q.off)
  }

  predicate MayRun(h: Heap, units: nat, calls: seq<Call>)
    decreases |calls|
  {
    calls == [] || (MayCall(h, units, calls[0]) && MayRun(Step(h, units, calls[0]), units, calls[1..]))
  }

  function Run(h: Heap, units: nat, calls: seq<Call>): Heap
    requires MayRun(h, units, calls)
    decreases |calls|
  {
    if calls == [] then h else Run(Step(h, units, calls[0]), units, calls[1..])
  }

  lemma StepKeepsInv(h: Heap, units: nat, c: Call)
    requires Inv(h, units) && MayCall(h, units, c)
    ensures Inv(Step(h, units, c), units)
  {
    match c
    case AllocCall(size, align, grant) => AllocKeepsInv(h, units, size, align, grant);
    case FreeCall(q) => FreeKeepsInv(h, units, q.page, q.off);
  }

  lemma {:induction false} RunKeepsInv(h: Heap, units: nat, calls: seq<Call>)
    requires Inv(h, units) && MayRun(h, units, calls)
    ensures Inv(Run(h, units, calls), units)
    decreases |calls|
  {
    if calls != [] {
      StepKeepsInv(h, units, calls[0]);
      RunKeepsInv(Step(h, units, calls[0]), units, calls[1..]);
    }
  }

  /** After any run of allocations and frees from the empty heap, every page is partitioned into a
      canonical free list and disjoint live blocks with at least one live block on it, a page is on
      exactly one list if it has free units and on none otherwise, and the counters are exact. */
  lemma EveryRunIsSafe(units: nat, calls: seq<Call>)
    requires MayRun(EMPTY, units, calls)
    ensures Inv(Run(EMPTY, units, calls), units)
  {
    assert LiveBytes(EMPTY.pages) == map[] && PageBytes(EMPTY.pages, units) == map[];
    RunKeepsInv(EMPTY, units, calls);
  }

  /** After any run a page is on a list, and on one only and once, exactly when some but not all of its
      units are free; a slob page on no list has no free unit. */
  lemma ListedIffPartlyFree(units: nat, calls: seq<Call>, p: nat)
    requires MayRun(EMPTY, units, calls)
    ensures var h := Run(EMPTY, units, calls);
      && (h.lists.Count(p) == if p in h.pages && 0 < Total(h.pages[p].free) < units then 1 else 0)
      && (p in h.pages && h.lists.Count(p) == 0 ==> Total(h.pages[p].free) == 0)
  {
    var h := Run(EMPTY, units, calls);
    EveryRunIsSafe(units, calls);
    if p in h.pages {
      var o :| o in h.pages[p].live;
      LivePageNotFree(h.pages[p], units, o);
    }
  }

  /** A block stays live with its size through every run that does not free it. */
  lemma {:induction false} BlockSurvives(h: Heap, units: nat, calls: seq<Call>, q: Pointer)
    requires Inv(h, units) && MayRun(h, units, calls) && IsLive(h, q) && FreeCall(q) !in calls
    ensures IsLive(Run(h, units, calls), q) && SizeAt(Run(h, units, calls), q) == SizeAt(h, q)
    decreases |calls|
  {
    if calls != [] {
      StepKeepsBlock(h, units, calls[0], q);
      StepKeepsInv(h, units, calls[0]);
      BlockSurvives(Step(h, units, calls[0]), units, calls[1..], q);
    }
  }

  lemma StepKeepsBlock(h: Heap, units: nat, c: Call, q: Pointer)
    requires Inv(h, units) && MayCall(h, units, c) && IsLive(h, q) && c != FreeCall(q)
    ensures IsLive(Step(h, units, c), q) && SizeAt(Step(h, units, c), q) == SizeAt(h, q)
  {
    match c
    case AllocCall(size, align, grant) => AllocEffect(h, units, size, align, grant);
    case FreeCall(d) => FreeEffect(h, units, d.page, d.off);
  }

  /** When no block is live, all pages are back and nothing is counted as used. */
  lemma NothingIsLeaked(h: Heap, units: nat)
    requires Inv(h, units) && forall q :: !IsLive(h, q)
    ensures h.pages == map[] && h.lists == Lists([], [], []) && h.used == 0 && h.pcount == 0
  {
    forall p | p in h.pages ensures false {
      var o :| o in h.pages[p].live;
      assert IsLive(h, Pointer(p, o));
    }
    assert h.pages == map[];
    assert LiveBytes(h.pages) == map[];
    forall p: nat ensures p !in h.lists.small && p !in h.lists.medium && p !in h.lists.large {
      assert h.lists.Count(p) == 0;
    }
    NoMembers(h.lists.small);
    NoMembers(h.lists.medium);
    NoMembers(h.lists.large);
  }

  lemma NoMembers(list: seq<nat>)
    ensures list == [] || list[0] in list
  {
  }

  // ---------- accounting ----------

  ghost function FreeOf(pages: map<nat, PageState>): map<nat, int> {
    map p | p in pages :: Total(pages[p].free)
  }

  /** Bytes of the live blocks of a page beyond the sizes they were requested with. */
  ghost function RoundingOf(live: map<nat, nat>): map<nat, int> {
    map o | o in live :: BytesIn(UnitsFor(live[o])) - live[o]
  }

  ghost function Rounding(pages: map<nat, PageState>): map<nat, int> {
    map p | p in pages :: Sum(RoundingOf(pages[p].live))
  }

  lemma RoundingSum(live: map<nat, nat>)
    ensures Sum(RoundingOf(live)) == 2 * Sum(UnitsOf(live)) - Sum(live)
    ensures Sum(RoundingOf(live)) >= 0
  {
    var bytes: map<nat, int> := map o | o in live :: BytesIn(UnitsFor(live[o]));
    SumPlus(UnitsOf(live), UnitsOf(live), bytes);
    SumPlus(RoundingOf(live), live, bytes);
    SumNonNegative(RoundingOf(live));
  }

  /** The bytes of a page are its free bytes, the rounding and the bytes asked for. */
  lemma BytesOfPage(p: PageState, units: nat)
    requires PageOk(p, units)
    ensures BytesIn(units) == 2 * Total(p.free) + Sum(RoundingOf(p.live)) + Sum(p.live)
    ensures Sum(RoundingOf(p.live)) >= 0
  {
    RoundingSum(p.live);
  }

  ghost function TakenOf(pages: map<nat, PageState>): map<nat, int> {
    map p | p in pages :: Sum(RoundingOf(pages[p].live)) + Sum(pages[p].live)
  }

  lemma HeapBytes(pages: map<nat, PageState>, units: nat)
    requires PagesOk(pages, units)
    ensures Sum(PageBytes(pages, units)) == 2 * Sum(FreeOf(pages)) + Sum(Rounding(pages)) + Sum(LiveBytes(pages))
  {
    var free: map<nat, int> := map p | p in pages :: 2 * Total(pages[p].free);
    SumPlus(FreeOf(pages), FreeOf(pages), free);
    SumPlus(Rounding(pages), LiveBytes(pages), TakenOf(pages));
    forall p | p in pages ensures PageBytes(pages, units)[p] == free[p] + TakenOf(pages)[p] {
      BytesOfPage(pages[p], units);
    }
    SumPlus(free, TakenOf(pages), PageBytes(pages, units));
  }

  lemma HeapBytesNonNegative(pages: map<nat, PageState>, units: nat)
    requires PagesOk(pages, units)
    ensures Sum(FreeOf(pages)) >= 0 && Sum(Rounding(pages)) >= 0
  {
    forall p | p in pages ensures Rounding(pages)[p] >= 0 {
      BytesOfPage(pages[p], units);
    }
    SumNonNegative(FreeOf(pages));
    SumNonNegative(Rounding(pages));
  }

  /** The bytes claimed minus the bytes in use are the free bytes, the rounding of the live blocks, and
      a page for each page already released, and so never negative. */
  ghost predicate Balanced(h: Heap, units: nat) {
    && h.claimed - h.used == 2 * Sum(FreeOf(h.pages)) + Sum(Rounding(h.pages)) + h.released * BytesIn(units)
    && Sum(FreeOf(h.pages)) >= 0 && Sum(Rounding(h.pages)) >= 0 && h.claimed - h.used >= 0
  }

  lemma ProductNonNegative(n: nat, k: nat)
    ensures n * k >= 0
  {
  }

  lemma ClaimedParts(h: Heap, units: nat)
    requires Inv(h, units)
    ensures h.claimed - h.used == 2 * Sum(FreeOf(h.pages)) + Sum(Rounding(h.pages)) + Times(h.released, BytesIn(units))
    ensures Sum(FreeOf(h.pages)) >= 0 && Sum(Rounding(h.pages)) >= 0
  {
    HeapBytes(h.pages, units);
    HeapBytesNonNegative(h.pages, units);
  }

  /** What sys_slob_free is built from. */
  lemma ClaimedMinusUsed(h: Heap, units: nat)
    requires Inv(h, units)
    ensures Balanced(h, units)
  {
    ClaimedParts(h, units);
    TimesIsProduct(h.released, BytesIn(units));
    ProductNonNegative(h.released, BytesIn(units));
  }

  /** So after every run from the empty heap. */
  lemma AccountsBalance(units: nat, calls: seq<Call>)
    requires MayRun(EMPTY, units, calls)
    ensures Balanced(Run(EMPTY, units, calls), units)
  {
    EveryRunIsSafe(units, calls);
    ClaimedMinusUsed(Run(EMPTY, units, calls), units);
  }

  // ---------- the free counter ----------

  lemma {:induction false} ListedUnitsAgree(pages: map<nat, PageState>, p: nat, list: seq<nat>)
    requires p !in list
    ensures ListedUnits(pages - {p}, list) == ListedUnits(pages, list)
  {
    if list != [] {
      ListedUnitsAgree(pages, p, list[1..]);
    }
  }

  ghost function Occurrences(list: seq<nat>, p: nat): nat {
    multiset(list)[p]
  }

  lemma {:induction false} ListedUnitsSum(pages: map<nat, PageState>, list: seq<nat>)
    requires forall p: nat :: Occurrences(list, p) == if FreeUnits(pages, p) > 0 then 1 else 0
    ensures ListedUnits(pages, list) == Sum(FreeOf(pages))
    decreases |list|
  {
    if list == [] {
      forall p | p in pages ensures FreeOf(pages)[p] == 0 {
        assert Occurrences(list, p) == 0;
      }
      SumZero(FreeOf(pages));
    } else {
      var p, tail := list[0], list[1..];
      assert list == [p] + tail;
      assert Occurrences(list, p) == 1 + Occurrences(tail, p);
      assert FreeUnits(pages, p) > 0;
      assert p !in tail;
      SumRemove(FreeOf(pages), p);
      assert FreeOf(pages - {p}) == FreeOf(pages) - {p};
      forall q: nat ensures Occurrences(tail, q) == if FreeUnits(pages - {p}, q) > 0 then 1 else 0 {
        assert Occurrences(list, q) == (if q == p then 1 else 0) + Occurrences(tail, q);
      }
      ListedUnitsSum(pages - {p}, tail);
      ListedUnitsAgree(pages, p, tail);
    }
  }

  /** The counter that slob_alloc computes is the number of free units in all slob pages after its
      attempt on the best page. */
  lemma FreeCounterIsExact(h: Heap, units: nat, size: nat, align: nat, grant: Option<nat>)
    requires Inv(h, units) && MayAlloc(h, units, size, grant)
    ensures Alloc(h, units, size, align, grant).0.free == Sum(FreeOf(Attempt(h, size, align).0.pages))
  {
    var h1 := Attempt(h, size, align).0;
    AttemptKeeps(h, units, size, align);
    forall p: nat ensures Occurrences(h1.lists.All(), p) == h1.lists.Count(p) {
    }
    ListedUnitsSum(h1.pages, h1.lists.All());
  }
}
