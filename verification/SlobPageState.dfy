/** One slob page as a value: its free list and its live blocks. */
module SlobPageState {
  import opened Options
  import opened FreeList
  import opened SlobSizes
  import opened Sums

  /** `live` maps the offset of each block in use to the size in bytes it was requested with. */
  datatype PageState = PageState(free: seq<Block>, live: map<nat, nat>)

  /** The page after a block was taken from it for `size` bytes. */
  function TakenFrom(page: PageState, t: Taken, size: nat): PageState {
    PageState(t.rest, page.live[t.start := size])
  }

  /** The page after the block at `off` went back into its free list. */
  function Freed(page: PageState, off: nat): PageState
    requires off in page.live
  {
    PageState(PutBack(page.free, Block(off, UnitsFor(page.live[off]))), page.live - {off})
  }

  /** Unit `u` belongs to the live block at `o`. */
  ghost predicate InLive(live: map<nat, nat>, o: nat, u: int) {
    o in live && o <= u < o + UnitsFor(live[o])
  }

  ghost predicate Owned(live: map<nat, nat>, u: int) {
    exists o :: InLive(live, o, u)
  }

  ghost function UnitsOf(live: map<nat, nat>): map<nat, int> {
    map o | o in live :: UnitsFor(live[o])
  }

  /** Live blocks are non-empty, inside the page and disjoint. */
  ghost predicate LiveOk(live: map<nat, nat>, limit: nat) {
    && (forall o :: o in live ==> live[o] >= 1 && o + UnitsFor(live[o]) <= limit)
    && (forall o, q :: o in live && q in live && o < q ==> o + UnitsFor(live[o]) <= q)
  }

  /** Every unit of the page is either free or in a live block. */
  ghost predicate Partitions(free: seq<Block>, live: map<nat, nat>, limit: nat) {
    forall u :: 0 <= u < limit ==> (Covers(free, u) <==> !Owned(live, u))
  }

  /** The canonical free list and the disjoint live blocks partition the page. */
  ghost predicate PageOk(p: PageState, limit: nat) {
    && Canonical(p.free, limit)
    && LiveOk(p.live, limit)
    && Partitions(p.free, p.live, limit)
    && Total(p.free) + Sum(UnitsOf(p.live)) == limit
  }

  /** Some block of the page is in use. */
  ghost predicate HasLive(p: PageState) { exists o :: o in p.live }

  /** A unit is never in two live blocks. */
  lemma OneOwner(p: PageState, limit: nat, o: nat, q: nat, u: int)
    requires PageOk(p, limit) && InLive(p.live, o, u) && InLive(p.live, q, u)
    ensures o == q
  {
  }

  lemma CoveredInPage(free: seq<Block>, limit: nat, u: int)
    requires Canonical(free, limit) && Covers(free, u)
    ensures 0 <= u < limit
  {
  }

  /** A run of free units meets no live block. */
  lemma RunMissesLive(p: PageState, limit: nat, start: nat, units: nat)
    requires PageOk(p, limit) && units >= 1 && FreeRun(p.free, start, units)
    ensures start !in p.live
    ensures forall o :: o in p.live ==> o + UnitsFor(p.live[o]) <= start || start + units <= o
  {
    forall o | o in p.live ensures o + UnitsFor(p.live[o]) <= start || start + units <= o {
      assert Covers(p.free, start);
      CoveredInPage(p.free, limit, start);
      assert !InLive(p.live, o, start);
      assert start <= o < start + units ==> Covers(p.free, o);
      assert InLive(p.live, o, o);
    }
  }

  lemma OwnedAdd(live: map<nat, nat>, o: nat, size: nat, u: int)
    requires o !in live
    ensures Owned(live[o := size], u) <==> Owned(live, u) || o <= u < o + UnitsFor(size)
  {
    var more := live[o := size];
    if Owned(live, u) {
      var q :| InLive(live, q, u);
      assert InLive(more, q, u);
    }
    assert InLive(more, o, u) <==> o <= u < o + UnitsFor(size);
    if Owned(more, u) && !(o <= u < o + UnitsFor(size)) {
      var q :| InLive(more, q, u);
      assert InLive(live, q, u);
    }
  }

  lemma LiveOkAdd(live: map<nat, nat>, start: nat, size: nat, limit: nat)
    requires LiveOk(live, limit) && size >= 1 && start + UnitsFor(size) <= limit
    requires forall o :: o in live ==> o + UnitsFor(live[o]) <= start || start + UnitsFor(size) <= o
    ensures LiveOk(live[start := size], limit)
  {
  }

  lemma PartitionsAdd(free: seq<Block>, live: map<nat, nat>, limit: nat, start: nat, size: nat, rest: seq<Block>)
    requires Partitions(free, live, limit) && start !in live
    requires forall u :: Covers(rest, u) <==> Covers(free, u) && !(start <= u < start + UnitsFor(size))
    ensures Partitions(rest, live[start := size], limit)
  {
    forall u | 0 <= u < limit ensures Covers(rest, u) <==> !Owned(live[start := size], u) {
      OwnedAdd(live, start, size, u);
    }
  }

  lemma LiveUnitsAdd(live: map<nat, nat>, start: nat, size: nat)
    requires start !in live
    ensures Sum(UnitsOf(live[start := size])) == Sum(UnitsOf(live)) + UnitsFor(size)
  {
    assert UnitsOf(live[start := size]) == UnitsOf(live)[start := UnitsFor(size)];
    SumAdd(UnitsOf(live), start, UnitsFor(size));
  }

  /** A page stays partitioned when a run of free units becomes a live block. */
  lemma BlockBecomesLive(p: PageState, limit: nat, start: nat, size: nat, rest: seq<Block>)
    requires PageOk(p, limit) && size >= 1 && start + UnitsFor(size) <= limit
    requires FreeRun(p.free, start, UnitsFor(size)) && Canonical(rest, limit)
    requires forall u :: Covers(rest, u) <==> Covers(p.free, u) && !(start <= u < start + UnitsFor(size))
    requires Total(p.free) == Total(rest) + UnitsFor(size)
    ensures start !in p.live && PageOk(PageState(rest, p.live[start := size]), limit)
  {
    RunMissesLive(p, limit, start, UnitsFor(size));
    LiveOkAdd(p.live, start, size, limit);
    LiveUnitsAdd(p.live, start, size);
    PartitionsAdd(p.free, p.live, limit, start, size, rest);
  }

  /** Allocation turns a free run into a live block of a page that stays partitioned. */
  lemma TakeKeepsPageOk(p: PageState, limit: nat, size: nat, align: nat)
    requires PageOk(p, limit) && size >= 1
    requires Take(p.free, UnitsFor(size), align).Some?
    ensures var Taken(start, rest) := Take(p.free, UnitsFor(size), align).value;
      start !in p.live && PageOk(PageState(rest, p.live[start := size]), limit)
  {
    var Taken(start, rest) := Take(p.free, UnitsFor(size), align).value;
    TakeRemovesRun(p.free, limit, UnitsFor(size), align);
    TakeTotal(p.free, UnitsFor(size), align);
    BlockBecomesLive(p, limit, start, size, rest);
  }

  /** The units of a live block are not free. */
  lemma LiveIsOutside(p: PageState, limit: nat, o: nat)
    requires PageOk(p, limit) && o in p.live
    ensures Outside(p.free, Block(o, UnitsFor(p.live[o])))
  {
    forall u | o <= u < o + UnitsFor(p.live[o]) ensures !Covers(p.free, u) {
      assert InLive(p.live, o, u);
    }
  }

  /** A unit of the block at `o` is in no other live block. */
  lemma OwnedRemove(p: PageState, limit: nat, o: nat, u: int)
    requires PageOk(p, limit) && o in p.live
    ensures Owned(p.live - {o}, u) <==> Owned(p.live, u) && !InLive(p.live, o, u)
  {
    var live := p.live - {o};
    if Owned(live, u) {
      var q :| InLive(live, q, u);
      assert InLive(p.live, q, u);
      assert InLive(p.live, o, u) ==> o == q;
    }
    if Owned(p.live, u) && !InLive(p.live, o, u) {
      var q :| InLive(p.live, q, u);
      assert InLive(live, q, u);
    }
  }

  /** A page stays partitioned when a live block becomes free units. */
  lemma BlockBecomesFree(p: PageState, limit: nat, o: nat, free: seq<Block>)
    requires PageOk(p, limit) && o in p.live && Canonical(free, limit)
    requires forall u :: Covers(free, u) <==> Covers(p.free, u) || o <= u < o + UnitsFor(p.live[o])
    requires Total(free) == Total(p.free) + UnitsFor(p.live[o])
    ensures PageOk(PageState(free, p.live - {o}), limit)
  {
    var live := p.live - {o};
    assert Total(free) + Sum(UnitsOf(live)) == limit by {
      assert UnitsOf(live) == UnitsOf(p.live) - {o};
      SumRemove(UnitsOf(p.live), o);
    }
    forall u | 0 <= u < limit ensures Covers(free, u) <==> !Owned(live, u) {
      OwnedRemove(p, limit, o, u);
    }
  }

  /** Freeing turns a live block into free units of a page that stays partitioned. */
  lemma PutBackKeepsPageOk(p: PageState, limit: nat, o: nat)
    requires PageOk(p, limit) && o in p.live
    ensures PageOk(PageState(PutBack(p.free, Block(o, UnitsFor(p.live[o]))), p.live - {o}), limit)
  {
    var b := Block(o, UnitsFor(p.live[o]));
    LiveIsOutside(p, limit, o);
    PutBackAddsRun(p.free, limit, b);
    PutBackTotal(p.free, b);
    BlockBecomesFree(p, limit, o, PutBack(p.free, b));
  }

  /** The test of slob_free for the last live block: the free units and the block fill the page
      exactly when no other block is live. */
  lemma LastBlockTest(p: PageState, limit: nat, o: nat)
    requires PageOk(p, limit) && o in p.live
    ensures Total(p.free) + UnitsFor(p.live[o]) == limit <==> p.live.Keys == {o}
  {
    SumRemove(UnitsOf(p.live), o);
    if p.live.Keys == {o} {
      assert UnitsOf(p.live) - {o} == map[];
    } else {
      var q :| q in p.live && q != o;
      OthersTakeUnits(p.live, limit, o, q);
    }
  }

  lemma OthersTakeUnits(live: map<nat, nat>, limit: nat, o: nat, q: nat)
    requires LiveOk(live, limit) && o in live && q in live && q != o
    ensures Sum(UnitsOf(live) - {o}) > 0
  {
    var rest := UnitsOf(live) - {o};
    SumRemove(rest, q);
    SumNonNegative(rest - {q});
  }

  /** With a live block on it a page is not wholly free. */
  lemma LivePageNotFree(p: PageState, limit: nat, o: nat)
    requires PageOk(p, limit) && o in p.live
    ensures Total(p.free) < limit
  {
    SumRemove(UnitsOf(p.live), o);
    SumNonNegative(UnitsOf(p.live) - {o});
  }

  /** A page fresh from the page allocator with its first block on it. */
  lemma FreshPageOk(limit: nat, size: nat)
    requires size >= 1 && UnitsFor(size) <= limit
    ensures PageOk(PageState(Carve(Block(0, limit), 0, UnitsFor(size)), map[0 := size]), limit)
    ensures Total(Carve(Block(0, limit), 0, UnitsFor(size))) == limit - UnitsFor(size)
  {
    var p := PageState([Block(0, limit)], map[]);
    assert UnitsOf(p.live) == map[];
    forall u | 0 <= u < limit ensures Covers(p.free, u) <==> !Owned(p.live, u) {
      assert p.free[0].off <= u < p.free[0].End();
    }
    TakeFromFreshPage(limit, UnitsFor(size), 0);
    TakeKeepsPageOk(p, limit, size, 0);
    TakeTotal(p.free, UnitsFor(size), 0);
    assert p.live[0 := size] == map[0 := size];
  }
}
