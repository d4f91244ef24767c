/** The counters of the slob allocator over whole runs, in terms of the calls that were made. */
module SlobAccounts {
  import opened Options
  import opened FreeList
  import opened SlobSizes
  import opened SlobPageState
  import opened SlobState
  import opened SlobInvariant
  import opened SlobLaws
  import opened SlobRuns
  import opened Sums

  /** The call gets a page: nothing is found for it, and the page allocator gives one. */
  ghost predicate GetsPage(h: Heap, c: Call) {
    c.AllocCall? && NothingFound(h, c.size, c.align) && c.grant.Some?
  }

  /** The call gives a page back: it frees the last live block of a page. */
  ghost predicate EndsPage(h: Heap, c: Call) {
    c.FreeCall? && IsLive(h, c.q) && h.pages[c.q.page].live.Keys == {c.q.off}
  }

  ghost function Obtained(h: Heap, units: nat, calls: seq<Call>): nat
    requires MayRun(h, units, calls)
    decreases |calls|
  {
    if calls == [] then 0
    else Obtained(Step(h, units, calls[0]), units, calls[1..]) + if GetsPage(h, calls[0]) then 1 else 0
  }

  ghost function Released(h: Heap, units: nat, calls: seq<Call>): nat
    requires MayRun(h, units, calls)
    decreases |calls|
  {
    if calls == [] then 0
    else Released(Step(h, units, calls[0]), units, calls[1..]) + if EndsPage(h, calls[0]) then 1 else 0
  }

  /** The counters of pages in state h' are those of h, with so many pages obtained and released. */
  ghost predicate PagesCounted(h: Heap, h': Heap, units: nat, obtained: nat, released: nat) {
    && h'.claimed == h.claimed + Times(obtained, 2 * units)
    && h'.pcount == h.pcount + obtained - released
    && h'.released == h.released + released
  }

  lemma AllocCounted(h: Heap, units: nat, size: nat, align: nat, grant: Option<nat>)
    requires Inv(h, units) && MayAlloc(h, units, size, grant)
    ensures PagesCounted(h, Alloc(h, units, size, align, grant).0, units,
                         if GetsPage(h, AllocCall(size, align, grant)) then 1 else 0, 0)
  {
    AllocIs(h, units, size, align, grant);
    if !NothingFound(h, size, align) {
      var i, p, s :| Found(h, size, align, i, p, s);
    }
  }

  lemma CallCounted(h: Heap, units: nat, c: Call)
    requires Inv(h, units) && MayCall(h, units, c)
    ensures PagesCounted(h, Step(h, units, c), units, if GetsPage(h, c) then 1 else 0, if EndsPage(h, c) then 1 else 0)
  {
    match c
    case AllocCall(size, align, grant) => AllocCounted(h, units, size, align, grant);
    case FreeCall(q) => FreeIs(h, units, q.page, q.off);
  }

  lemma NothingCounted(h: Heap, units: nat)
    ensures PagesCounted(h, h, units, 0, 0)
  {
  }

  /** One page more or none, before a run. */
  lemma CountedOn(h: Heap, k: Heap, h': Heap, units: nat, a: nat, b: nat, c: nat, d: nat, e: nat, f: nat)
    requires PagesCounted(h, k, units, a, b) && PagesCounted(k, h', units, c, d) && a <= 1 && e == c + a && f == d + b
    ensures PagesCounted(h, h', units, e, f)
  {
    assert Times(0, 2 * units) == 0 && Times(1, 2 * units) == 2 * units;
    assert Times(c + 1, 2 * units) == 2 * units + Times(c, 2 * units);
  }

  /** A run as its first call and the rest. */
  lemma FirstCall(h: Heap, units: nat, calls: seq<Call>) returns (k: Heap, rest: seq<Call>, a: nat, b: nat)
    requires Inv(h, units) && MayRun(h, units, calls) && calls != []
    ensures Inv(k, units) && rest == calls[1..] && MayRun(k, units, rest) && Run(h, units, calls) == Run(k, units, rest)
    ensures PagesCounted(h, k, units, a, b) && a <= 1
    ensures Obtained(h, units, calls) == Obtained(k, units, rest) + a
    ensures Released(h, units, calls) == Released(k, units, rest) + b
  {
    k, rest := Step(h, units, calls[0]), calls[1..];
    a, b := if GetsPage(h, calls[0]) then 1 else 0, if EndsPage(h, calls[0]) then 1 else 0;
    StepKeepsInv(h, units, calls[0]);
    CallCounted(h, units, calls[0]);
  }

  lemma {:induction false} RunCounted(h: Heap, units: nat, calls: seq<Call>)
    requires Inv(h, units) && MayRun(h, units, calls)
    ensures PagesCounted(h, Run(h, units, calls), units, Obtained(h, units, calls), Released(h, units, calls))
    decreases |calls|
  {
    if calls == [] {
      NothingCounted(h, units);
    } else {
      var k, rest, a, b := FirstCall(h, units, calls);
      RunCounted(k, units, rest);
      CountedOn(h, k, Run(h, units, calls), units, a, b, Obtained(k, units, rest), Released(k, units, rest),
                Obtained(h, units, calls), Released(h, units, calls));
    }
  }

  lemma EmptyIsOk(units: nat)
    ensures Inv(EMPTY, units)
  {
    assert LiveBytes(EMPTY.pages) == map[] && PageBytes(EMPTY.pages, units) == map[];
  }

  /** After any run from the empty heap: claimed_m is the page size times the number of pages obtained,
      pcount and the number of slob pages are the pages obtained less those given back, used_m is the sum
      of the sizes of the live blocks, and claimed_m - used_m is the free bytes, the rounding of the live
      blocks and a page for each page given back. */
  lemma CountersTellTheRun(units: nat, calls: seq<Call>)
    requires MayRun(EMPTY, units, calls)
    ensures var h, obtained, released :=
        Run(EMPTY, units, calls), Obtained(EMPTY, units, calls), Released(EMPTY, units, calls);
      && h.claimed == obtained * (2 * units)
      && h.pcount == |h.pages| == obtained - released
      && h.used == Sum(LiveBytes(h.pages))
      && h.claimed - h.used == 2 * Sum(FreeOf(h.pages)) + Sum(Rounding(h.pages)) + released * (2 * units)
  {
    EmptyIsOk(units);
    RunCounted(EMPTY, units, calls);
    EveryRunIsSafe(units, calls);
    var obtained, released := Obtained(EMPTY, units, calls), Released(EMPTY, units, calls);
    InvCounts(Run(EMPTY, units, calls), units, obtained, released);
    TimesIsProduct(obtained, 2 * units);
    TimesIsProduct(released, 2 * units);
  }

  lemma InvCounts(h: Heap, units: nat, obtained: nat, released: nat)
    requires Inv(h, units) && PagesCounted(EMPTY, h, units, obtained, released)
    ensures h.claimed == Times(obtained, 2 * units)
    ensures h.pcount == |h.pages| == obtained - released
    ensures h.used == Sum(LiveBytes(h.pages))
    ensures h.claimed - h.used == 2 * Sum(FreeOf(h.pages)) + Sum(Rounding(h.pages)) + Times(released, 2 * units)
  {
    InvDifference(h, units, released);
    InvTotals(h, units);
  }

  lemma InvTotals(h: Heap, units: nat)
    requires Inv(h, units)
    ensures h.pcount == |h.pages| && h.used == Sum(LiveBytes(h.pages))
  {
  }

  lemma InvDifference(h: Heap, units: nat, released: nat)
    requires Inv(h, units) && h.released == released
    ensures h.claimed - h.used == 2 * Sum(FreeOf(h.pages)) + Sum(Rounding(h.pages)) + Times(released, 2 * units)
  {
    ClaimedParts(h, units);
    assert BytesIn(units) == 2 * units;
  }

  /** What one more call does. */
  lemma {:induction false} RunAppend(h: Heap, units: nat, calls: seq<Call>, c: Call)
    requires MayRun(h, units, calls) && MayCall(Run(h, units, calls), units, c)
    ensures MayRun(h, units, calls + [c])
    ensures Run(h, units, calls + [c]) == Step(Run(h, units, calls), units, c)
    decreases |calls|
  {
    if calls == [] {
      assert [c][1..] == [];
    } else {
      assert (calls + [c])[1..] == calls[1..] + [c];
      RunAppend(Step(h, units, calls[0]), units, calls[1..], c);
    }
  }

  // ---------- the free counter ----------

  /** The pages that were there before, as they are now. */
  ghost function OldPages(h: Heap, h': Heap): map<nat, PageState> {
    map p | p in h'.pages && p in h.pages :: h'.pages[p]
  }

  lemma CounterAfter(h: Heap, units: nat, size: nat, align: nat, grant: Option<nat>)
    returns (h': Heap, r: Option<Pointer>, h1: Heap)
    requires Inv(h, units) && MayAlloc(h, units, size, grant)
    ensures (h', r) == Alloc(h, units, size, align, grant) && h1 == Attempt(h, size, align).0
    ensures h'.free == Sum(FreeOf(h1.pages))
  {
    FreeCounterIsExact(h, units, size, align, grant);
    var result := Alloc(h, units, size, align, grant);
    h', r, h1 := result.0, result.1, Attempt(h, size, align).0;
  }

  lemma OldPagesAre(h: Heap, h': Heap, h1: Heap, p: nat, page: PageState)
    requires || (p in h.pages && h1.pages == h'.pages == h.pages[p := page])
             || (p !in h.pages && h1.pages == h.pages && h'.pages == h.pages[p := page])
             || h1.pages == h'.pages == h.pages
    ensures OldPages(h, h') == h1.pages
  {
  }

  lemma OldPagesServed(h: Heap, units: nat, size: nat, align: nat, grant: Option<nat>, p: nat, t: Taken)
    requires MayAlloc(h, units, size, grant) && p in h.pages
    requires Attempt(h, size, align) == (TakeFrom(h, p, t, size), Some(Pointer(p, t.start)))
    ensures OldPages(h, Alloc(h, units, size, align, grant).0) == Attempt(h, size, align).0.pages
  {
    var h', r := AfterAttempt(h, units, size, align, grant, p, t);
    OldPagesAre(h, h', TakeFrom(h, p, t, size), p, TakenFrom(h.pages[p], t, size));
  }

  lemma OldPagesUnserved(h: Heap, units: nat, size: nat, align: nat, grant: Option<nat>)
    requires MayAlloc(h, units, size, grant) && Attempt(h, size, align) == (h, None)
    ensures OldPages(h, Alloc(h, units, size, align, grant).0) == h.pages
  {
    var page := PageState(Carve(Block(0, units), 0, UnitsFor(size)), map[0 := size]);
    if grant.Some? {
      var h', r := AfterGrowth(h, units, size, align, grant.value);
      OldPagesAre(h, h', h, grant.value, page);
    } else {
      OldPagesAre(h, Alloc(h, units, size, align, grant).0, h, 0, page);
    }
  }

  lemma AttemptedPages(h: Heap, units: nat, size: nat, align: nat, grant: Option<nat>)
    requires Inv(h, units) && MayAlloc(h, units, size, grant)
    ensures OldPages(h, Alloc(h, units, size, align, grant).0) == Attempt(h, size, align).0.pages
  {
    var i, p, t := AttemptIs(h, units, size, align);
    if i >= 0 {
      OldPagesServed(h, units, size, align, grant, p, t);
    } else {
      OldPagesUnserved(h, units, size, align, grant);
    }
  }

  /** The counter `free` is the number of free units that the call left in all pages that were there. */
  lemma FreeCounter(h: Heap, units: nat, size: nat, align: nat, grant: Option<nat>)
    requires Inv(h, units) && MayAlloc(h, units, size, grant)
    ensures var h' := Alloc(h, units, size, align, grant).0; h'.free == Sum(FreeOf(OldPages(h, h')))
  {
    var h', r, h1 := CounterAfter(h, units, size, align, grant);
    AttemptedPages(h, units, size, align, grant);
  }
}
