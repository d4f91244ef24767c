/** The slob heap as a value, and its two entry points as functions of that value. `units` is the
    number of units in a page, SLOB_UNITS(PAGE_SIZE). */
module SlobState {
  import opened Options
  import opened FreeList
  import opened SlobSizes
  import opened SlobPageState
  import opened Sums

  /** The lists free_slob_small, free_slob_medium and free_slob_large, by page frame number. */
  datatype Lists = Lists(small: seq<nat>, medium: seq<nat>, large: seq<nat>) {
    function For(c: SizeClass): seq<nat> {
      match c case Small => small case Medium => medium case Large => large
    }

    /** list_add: a page goes to the front of a list. */
    function Add(c: SizeClass, p: nat): Lists {
      match c
      case Small => this.(small := [p] + small)
      case Medium => this.(medium := [p] + medium)
      case Large => this.(large := [p] + large)
    }

    /** list_del: a page leaves the list it is on. */
    function Remove(p: nat): Lists {
      Lists(Without(small, p), Without(medium, p), Without(large, p))
    }

    function All(): seq<nat> { small + medium + large }

    /** How often a page occurs on the lists. */
    ghost function Count(p: nat): nat {
      multiset(small)[p] + multiset(medium)[p] + multiset(large)[p]
    }
  }

  function Without(list: seq<nat>, p: nat): seq<nat> {
    if list == [] then []
    else if list[0] == p then list[1..]
    else [list[0]] + Without(list[1..], p)
  }

  /** Pages are named by their page frame number. `used` and `claimed` are the true totals that
      the int counters used_m and claimed_m hold modulo 2^32; `released` counts the pages that
      went back to the page allocator. */
  datatype Heap = Heap(
    pages: map<nat, PageState>,
    lists: Lists,
    free: nat,
    pcount: int,
    used: int,
    claimed: int,
    released: nat)

  datatype Pointer = Pointer(page: nat, off: nat)

  const EMPTY: Heap := Heap(map[], Lists([], [], []), 0, 0, 0, 0, 0)

  // ---------- choice of the page ----------

  function FreeUnits(pages: map<nat, PageState>, p: nat): nat {
    if p in pages then Total(pages[p].free) else 0
  }

  /** The scan of slob_alloc over a list: the first page with the fewest units among those with
      at least `need`; `best` is the choice so far. */
  function BestPage(pages: map<nat, PageState>, list: seq<nat>, need: nat, best: Option<nat>): Option<nat> {
    if list == [] then best
    else if FreeUnits(pages, list[0]) < need then BestPage(pages, list[1..], need, best)
    else
      var alt := if best.None? then list[0] else best.value;
      var alt' := if FreeUnits(pages, list[0]) < FreeUnits(pages, alt) then list[0] else alt;
      BestPage(pages, list[1..], need, Some(alt'))
  }

  // ---------- slob_alloc ----------

  /** A block is cut out of the free list of page p, which leaves its list if nothing is left. */
  function TakeFrom(h: Heap, p: nat, t: Taken, size: nat): Heap
    requires p in h.pages
  {
    h.(pages := h.pages[p := TakenFrom(h.pages[p], t, size)],
       lists := if Total(t.rest) == 0 then h.lists.Remove(p) else h.lists)
  }

  /** The attempt on the best listed page, before the page allocator is asked. */
  function Attempt(h: Heap, size: nat, align: nat): (Heap, Option<Pointer>)
  {
    var best := BestPage(h.pages, h.lists.For(ClassOf(size)), UnitsFor(size), None);
    if best.None? || best.value !in h.pages then (h, None)
    else
      var t := Take(h.pages[best.value].free, UnitsFor(size), align);
      if t.None? then (h, None)
      else (TakeFrom(h, best.value, t.value, size), Some(Pointer(best.value, t.value.start)))
  }

  /** A new page f with the block at its start. */
  function Grow(h: Heap, units: nat, f: nat, size: nat): Heap
    requires UnitsFor(size) <= units
  {
    var rest := Carve(Block(0, units), 0, UnitsFor(size));
    h.(pages := h.pages[f := PageState(rest, map[0 := size])],
       lists := if Total(rest) == 0 then h.lists else h.lists.Add(ClassOf(size), f),
       pcount := h.pcount + 1,
       claimed := h.claimed + BytesIn(units))
  }

  /** The sum of the unit counts over the three lists. */
  function ListedUnits(pages: map<nat, PageState>, list: seq<nat>): nat {
    if list == [] then 0 else FreeUnits(pages, list[0]) + ListedUnits(pages, list[1..])
  }

  /** The rest of slob_alloc after the attempt: count the free units, and ask for a new page if
      the attempt gave no block. */
  function Settle(h1: Heap, r: Option<Pointer>, units: nat, size: nat, grant: Option<nat>): (Heap, Option<Pointer>)
    requires UnitsFor(size) <= units
  {
    var h2 := h1.(free := ListedUnits(h1.pages, h1.lists.All()));
    if r.Some? then (h2.(used := h2.used + size), r)
    else if grant.None? then (h2, None)
    else
      var h3 := Grow(h2, units, grant.value, size);
      (h3.(used := h3.used + size), Some(Pointer(grant.value, 0)))
  }

  /** slob_alloc; `grant` is the page the page allocator gives when it is asked. */
  function Alloc(h: Heap, units: nat, size: nat, align: nat, grant: Option<nat>): (Heap, Option<Pointer>)
    requires UnitsFor(size) <= units
  {
    var (h1, r) := Attempt(h, size, align);
    Settle(h1, r, units, size, grant)
  }

  // ---------- slob_free ----------

  /** The page goes back to the page allocator. */
  function Release(h: Heap, p: nat, size: nat): Heap {
    h.(pages := h.pages - {p}, lists := h.lists.Remove(p),
       used := h.used - size, pcount := h.pcount - 1, released := h.released + 1)
  }

  /** The block goes back into the free list of its page, which is listed if it was full. */
  function Reinsert(h: Heap, p: nat, off: nat): Heap
    requires p in h.pages && off in h.pages[p].live
  {
    var size := h.pages[p].live[off];
    h.(pages := h.pages[p := Freed(h.pages[p], off)],
       lists := if Total(h.pages[p].free) == 0 then h.lists.Add(ClassOf(size), p) else h.lists,
       used := h.used - size)
  }

  /** slob_free of the live block at `off` of page p. */
  function Free(h: Heap, units: nat, p: nat, off: nat): Heap
    requires p in h.pages && off in h.pages[p].live
  {
    var size := h.pages[p].live[off];
    if Total(h.pages[p].free) + UnitsFor(size) == units then Release(h, p, size) else Reinsert(h, p, off)
  }
}
