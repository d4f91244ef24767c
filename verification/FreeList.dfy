/** Address-ordered, coalesced lists of free blocks inside one page, as values.

    A page is a row of units 0..U-1. A free list is canonical when its blocks are
    non-empty, inside the page, in address order and separated by at least one
    unit that is not free. `Take` is the effect of slob_page_alloc on the list and
    `PutBack` the effect of the reinsertion in slob_free; the lemmas describe both
    without mentioning blocks, only which units are free. */
module FreeList {
  import opened Options

  datatype Block = Block(off: nat, size: nat) {
    function End(): nat { off + size }
  }

  ghost predicate Canonical(free: seq<Block>, limit: nat) {
    && (forall i :: 0 <= i < |free| ==> free[i].size >= 1 && free[i].End() <= limit)
    && (forall i, j :: 0 <= i < j < |free| ==> free[i].End() < free[j].off)
  }

  /** Canonical, block by block. */
  ghost predicate Spaced(free: seq<Block>, limit: nat) {
    free == [] ||
    (&& free[0].size >= 1 && free[0].End() <= limit
     && (|free| > 1 ==> free[0].End() < free[1].off)
     && Spaced(free[1..], limit))
  }

  lemma {:induction false} SpacedIsCanonical(free: seq<Block>, limit: nat)
    ensures Spaced(free, limit) <==> Canonical(free, limit)
  {
    if free != [] {
      var tail := free[1..];
      SpacedIsCanonical(tail, limit);
      assert forall i :: 0 <= i < |tail| ==> tail[i] == free[i + 1];
      if Spaced(free, limit) {
        forall i, j | 0 <= i < j < |free| ensures free[i].End() < free[j].off {
          assert i > 0 ==> tail[i - 1].End() < tail[j - 1].off;
          assert i == 0 && j > 1 ==> tail[0].End() < tail[j - 1].off;
        }
        forall i | 0 <= i < |free| ensures free[i].size >= 1 && free[i].End() <= limit {
          assert i > 0 ==> free[i] == tail[i - 1];
        }
      }
    }
  }

  /** Unit `u` lies in one of the free blocks. */
  ghost predicate Covers(free: seq<Block>, u: int) {
    exists k :: 0 <= k < |free| && free[k].off <= u < free[k].End()
  }

  lemma CoversConcat(f: seq<Block>, g: seq<Block>, u: int)
    ensures Covers(f + g, u) <==> Covers(f, u) || Covers(g, u)
  {
    if Covers(f, u) {
      var k :| 0 <= k < |f| && f[k].off <= u < f[k].End();
      assert (f + g)[k] == f[k];
    }
    if Covers(g, u) {
      var k :| 0 <= k < |g| && g[k].off <= u < g[k].End();
      assert (f + g)[|f| + k] == g[k];
    }
  }

  lemma CoversThree(f: seq<Block>, g: seq<Block>, h: seq<Block>, u: int)
    ensures Covers(f + g + h, u) <==> Covers(f, u) || Covers(g, u) || Covers(h, u)
  {
    CoversConcat(f, g, u);
    CoversConcat(f + g, h, u);
  }

  lemma CoversOne(b: Block, u: int)
    ensures Covers([b], u) <==> b.off <= u < b.End()
  {
    assert [b][0] == b;
  }

  function Total(free: seq<Block>): nat {
    if free == [] then 0 else free[0].size + Total(free[1..])
  }

  ghost predicate Aligned(x: int, align: nat) {
    align == 0 || x % align == 0
  }

  /** ALIGN(x, align) for an offset x in a page whose base is aligned, both in units; no alignment when
      it is 0. The source aligns addresses in bytes; a unit has two of them. */
  function AlignUp(x: nat, align: nat): (r: nat)
    ensures x <= r
  {
    if align == 0 then x else FirstFrom(x, align, 0)
  }

  /** The first of m, m + align, m + 2 * align, ... that is not below x. */
  function FirstFrom(x: nat, align: nat, m: nat): (r: nat)
    requires align > 0
    ensures x <= r
    decreases if m < x then x - m else 0
  {
    if m >= x then m else FirstFrom(x, align, m + align)
  }

  lemma {:induction false} FirstFromLeast(x: nat, align: nat, m: nat)
    requires align > 0 && m % align == 0
    ensures var r := FirstFrom(x, align, m);
      && x <= r && m <= r && r % align == 0
      && (forall y :: x <= y && m <= y && y % align == 0 ==> r <= y)
    decreases if m < x then x - m else 0
  {
    if m < x {
      assert (m + align) % align == 0 by {
        NextIsMultiple(m, align);
      }
      FirstFromLeast(x, align, m + align);
      forall y | m < y && y % align == 0 ensures m + align <= y {
        MultiplesApart(m, y, align);
      }
    }
  }

  lemma NextIsMultiple(m: nat, align: nat)
    requires align > 0 && m % align == 0
    ensures (m + align) % align == 0
  {
    var q := m / align;
    assert m + align == (q + 1) * align;
    MultipleIsAligned(q + 1, align);
  }

  lemma MultiplesApart(m: int, y: int, align: nat)
    requires align > 0 && m % align == 0 && y % align == 0 && m < y
    ensures m + align <= y
  {
    var p, q := m / align, y / align;
    assert m == p * align && y == q * align;
    if q <= p {
      MulMonotone(q, p, align);
      assert false;
    }
    MulMonotone(p + 1, q, align);
    assert (p + 1) * align == p * align + align;
  }

  lemma MultipleIsAligned(q: nat, align: nat)
    requires align > 0
    ensures (q * align) % align == 0
  {
    var k, r := (q * align) / align, (q * align) % align;
    assert (q - k) * align == r;
    if q - k >= 1 {
      MulMonotone(1, q - k, align);
    } else if q - k <= -1 {
      MulMonotone(q - k, -1, align);
    }
  }

  lemma MulMonotone(p: int, q: int, align: nat)
    requires p <= q
    ensures p * align <= q * align
  {
  }

  /** AlignUp gives the least aligned offset that is not below x. */
  lemma AlignUpLeast(x: nat, align: nat)
    ensures x <= AlignUp(x, align) && Aligned(AlignUp(x, align), align)
    ensures forall y :: x <= y && Aligned(y, align) ==> AlignUp(x, align) <= y
  {
    if align > 0 {
      FirstFromLeast(x, align, 0);
    }
  }

  // ---------- a canonical list is determined by the units it covers ----------

  lemma TailCovers(free: seq<Block>, limit: nat, u: int)
    requires Canonical(free, limit) && free != []
    ensures Canonical(free[1..], limit)
    ensures Covers(free[1..], u) <==> Covers(free, u) && u >= free[0].End()
  {
  }

  /** The unit just past a free block is never free: blocks are maximal. */
  lemma EndIsNotFree(free: seq<Block>, limit: nat, k: nat)
    requires Canonical(free, limit) && k < |free|
    ensures !Covers(free, free[k].End())
  {
  }

  /** Two canonical lists with the same free units are the same list. */
  lemma {:induction false} CanonicalUnique(f: seq<Block>, g: seq<Block>, limit: nat)
    requires Canonical(f, limit) && Canonical(g, limit)
    requires forall u :: Covers(f, u) <==> Covers(g, u)
    ensures f == g
  {
    if f == [] || g == [] {
      assert f != [] ==> Covers(f, f[0].off);
      assert g != [] ==> Covers(g, g[0].off);
    } else {
      HeadsAgree(f, g, limit);
      forall u ensures Covers(f[1..], u) <==> Covers(g[1..], u) {
        TailCovers(f, limit, u);
        TailCovers(g, limit, u);
      }
      TailCovers(f, limit, 0);
      TailCovers(g, limit, 0);
      CanonicalUnique(f[1..], g[1..], limit);
      assert f == [f[0]] + f[1..] && g == [g[0]] + g[1..];
    }
  }

  lemma HeadsAgree(f: seq<Block>, g: seq<Block>, limit: nat)
    requires Canonical(f, limit) && Canonical(g, limit) && f != [] && g != []
    requires forall u :: Covers(f, u) <==> Covers(g, u)
    ensures f[0] == g[0]
  {
    HeadStartsLow(f, g, limit);
    HeadStartsLow(g, f, limit);
    HeadEndsLow(f, g, limit);
    HeadEndsLow(g, f, limit);
  }

  lemma HeadStartsLow(f: seq<Block>, g: seq<Block>, limit: nat)
    requires Canonical(f, limit) && Canonical(g, limit) && f != [] && g != []
    requires forall u :: Covers(g, u) ==> Covers(f, u)
    ensures f[0].off <= g[0].off
  {
    assert Covers(g, g[0].off);
    var k :| 0 <= k < |f| && f[k].off <= g[0].off < f[k].End();
    assert k > 0 ==> f[0].End() < f[k].off;
  }

  lemma HeadEndsLow(f: seq<Block>, g: seq<Block>, limit: nat)
    requires Canonical(f, limit) && Canonical(g, limit) && f != [] && g != []
    requires f[0].off == g[0].off
    requires forall u :: Covers(g, u) ==> Covers(f, u)
    ensures g[0].End() <= f[0].End()
  {
    EndIsNotFree(f, limit, 0);
    assert !Covers(g, f[0].End());
  }

  // ---------- first fit ----------

  predicate Fits(b: Block, units: nat, align: nat) {
    AlignUp(b.off, align) + units <= b.End()
  }

  /** Index of the first block with room for the aligned request, or |free|. */
  function FirstFit(free: seq<Block>, units: nat, align: nat): (i: nat)
    ensures i <= |free|
    ensures forall j :: 0 <= j < i ==> !Fits(free[j], units, align)
    ensures i < |free| ==> Fits(free[i], units, align)
  {
    if free == [] || Fits(free[0], units, align) then 0 else 1 + FirstFit(free[1..], units, align)
  }

  /** What is left of a block when `units` units from `start` on are cut out of it. */
  function Carve(b: Block, start: nat, units: nat): seq<Block>
    requires b.off <= start && start + units <= b.End()
  {
    (if b.off < start then [Block(b.off, start - b.off)] else [])
    + (if start + units < b.End() then [Block(start + units, b.End() - (start + units))] else [])
  }

  datatype Taken = Taken(start: nat, rest: seq<Block>)

  function Take(free: seq<Block>, units: nat, align: nat): Option<Taken> {
    var i := FirstFit(free, units, align);
    if i == |free| then None
    else
      var start := AlignUp(free[i].off, align);
      Some(Taken(start, free[..i] + Carve(free[i], start, units) + free[i + 1..]))
  }

  /** All units start .. start+units-1 are free. */
  ghost predicate FreeRun(free: seq<Block>, start: int, units: nat) {
    forall u :: start <= u < start + units ==> Covers(free, u)
  }

  /** A run of free units lies inside a single block of a canonical list. */
  lemma {:induction false} RunInOneBlock(free: seq<Block>, limit: nat, start: int, units: nat) returns (k: nat)
    requires Canonical(free, limit) && units >= 1 && FreeRun(free, start, units)
    ensures k < |free| && free[k].off <= start && start + units <= free[k].End()
  {
    assert Covers(free, start);
    k :| 0 <= k < |free| && free[k].off <= start < free[k].End();
    EndIsNotFree(free, limit, k);
  }

  lemma CarveCanonical(b: Block, start: nat, units: nat, limit: nat)
    requires b.off <= start && start + units <= b.End() <= limit && units >= 1
    ensures Canonical(Carve(b, start, units), limit)
    ensures forall c :: c in Carve(b, start, units) ==> b.off <= c.off && c.End() <= b.End()
  {
  }

  lemma CarveCovers(b: Block, start: nat, units: nat, u: int)
    requires b.off <= start && start + units <= b.End() && units >= 1
    ensures Covers(Carve(b, start, units), u) <==> b.off <= u < b.End() && !(start <= u < start + units)
  {
    var parts := Carve(b, start, units);
    if b.off <= u < start {
      assert parts[0].off <= u < parts[0].End();
    }
    if start + units <= u < b.End() {
      assert parts[|parts| - 1].off <= u < parts[|parts| - 1].End();
    }
  }

  /** Lists that lie in separate, ordered stretches of the page join to a canonical list. */
  lemma Join(pre: seq<Block>, mid: seq<Block>, post: seq<Block>, lo: int, hi: int, limit: nat)
    requires Canonical(pre, limit) && Canonical(mid, limit) && Canonical(post, limit)
    requires lo <= hi
    requires forall i :: 0 <= i < |pre| ==> pre[i].End() < lo
    requires forall i :: 0 <= i < |mid| ==> lo <= mid[i].off && mid[i].End() <= hi
    requires forall i :: 0 <= i < |post| ==> hi < post[i].off
    ensures Canonical(pre + mid + post, limit)
  {
  }

  lemma SplitCovers(free: seq<Block>, i: nat, u: int)
    requires i < |free|
    ensures Covers(free, u) <==> Covers(free[..i], u) || free[i].off <= u < free[i].End() || Covers(free[i + 1..], u)
  {
  }

  lemma OthersMiss(free: seq<Block>, limit: nat, i: nat, u: int)
    requires Canonical(free, limit) && i < |free|
    ensures Covers(free[..i], u) ==> u < free[i].off
    ensures Covers(free[i + 1..], u) ==> free[i].End() < u
  {
  }

  /** The list when `units` units are taken off the front of `b`, or all of it. */
  function Front(pre: seq<Block>, b: Block, post: seq<Block>, units: nat): seq<Block>
    requires units <= b.size
  {
    if units == b.size then pre + post else pre + [Block(b.off + units, b.size - units)] + post
  }

  /** Cutting a run out of a block is taking the front of the part of it that starts there. */
  lemma CarveIsFront(pre: seq<Block>, b: Block, post: seq<Block>, start: nat, units: nat)
    requires b.off <= start && start + units <= b.End()
    ensures pre + Carve(b, start, units) + post ==
      if start == b.off then Front(pre, b, post, units)
      else Front(pre + [Block(b.off, start - b.off)], Block(start, b.End() - start), post, units)
  {
    if start == b.off {
      assert pre + [] + post == pre + post;
    } else {
      var head := [Block(b.off, start - b.off)];
      assert start + units == b.End() ==> pre + (head + []) + post == (pre + head) + post;
      assert start + units < b.End() ==>
        pre + (head + [Block(start + units, b.End() - (start + units))]) + post
        == (pre + head) + [Block(start + units, b.End() - (start + units))] + post;
    }
  }

  /** Cutting a run out of one block removes exactly that run and keeps the list canonical. */
  lemma CutRemovesRun(free: seq<Block>, limit: nat, i: nat, start: nat, units: nat)
    requires Canonical(free, limit) && units >= 1 && i < |free|
    requires free[i].off <= start && start + units <= free[i].End()
    ensures FreeRun(free, start, units)
    ensures var rest := free[..i] + Carve(free[i], start, units) + free[i + 1..];
      && Canonical(rest, limit)
      && (forall u :: Covers(rest, u) <==> Covers(free, u) && !(start <= u < start + units))
  {
    var b := free[i];
    var parts := Carve(b, start, units);
    var rest := free[..i] + parts + free[i + 1..];
    CarveCanonical(b, start, units, limit);
    Join(free[..i], parts, free[i + 1..], b.off, b.End(), limit);
    forall u ensures Covers(rest, u) <==> Covers(free, u) && !(start <= u < start + units) {
      CoversThree(free[..i], parts, free[i + 1..], u);
      CarveCovers(b, start, units, u);
      SplitCovers(free, i, u);
      OthersMiss(free, limit, i, u);
    }
  }

  /** Taking hands out an aligned run of free units, removes exactly those units and keeps
      the list canonical. */
  lemma TakeRemovesRun(free: seq<Block>, limit: nat, units: nat, align: nat)
    requires Canonical(free, limit) && units >= 1
    requires Take(free, units, align).Some?
    ensures var Taken(start, rest) := Take(free, units, align).value;
      && Aligned(start, align) && start + units <= limit && FreeRun(free, start, units)
      && Canonical(rest, limit)
      && (forall u :: Covers(rest, u) <==> Covers(free, u) && !(start <= u < start + units))
  {
    var i := FirstFit(free, units, align);
    AlignUpLeast(free[i].off, align);
    CutRemovesRun(free, limit, i, AlignUp(free[i].off, align), units);
  }

  /** First fit over the list is lowest fit over the page: the block handed out starts at
      the lowest aligned offset from which `units` units are free, and the request is
      refused exactly when there is no such offset. */
  lemma TakeIsLowestFit(free: seq<Block>, limit: nat, units: nat, align: nat)
    requires Canonical(free, limit) && units >= 1
    ensures Take(free, units, align).None? <==>
      (forall s: nat :: Aligned(s, align) ==> !FreeRun(free, s, units))
    ensures Take(free, units, align).Some? ==>
      forall s: nat :: Aligned(s, align) && FreeRun(free, s, units) ==> Take(free, units, align).value.start <= s
  {
    var i := FirstFit(free, units, align);
    forall s: nat | Aligned(s, align) && FreeRun(free, s, units)
      ensures i < |free| && AlignUp(free[i].off, align) <= s
    {
      var k := RunInOneBlock(free, limit, s, units);
      AlignUpLeast(free[k].off, align);
      assert Fits(free[k], units, align);
      AlignUpLeast(free[i].off, align);
      assert i < k ==> free[i].End() < free[k].off;
    }
    if i < |free| {
      TakeRemovesRun(free, limit, units, align);
    }
  }

  /** On a page that is one free block every request that fits the page is served from its start. */
  lemma TakeFromFreshPage(limit: nat, units: nat, align: nat)
    requires 1 <= units <= limit
    ensures Take([Block(0, limit)], units, align) == Some(Taken(0, Carve(Block(0, limit), 0, units)))
  {
    AlignUpLeast(0, align);
    assert Aligned(0, align);
    assert Fits(Block(0, limit), units, align);
    var free := [Block(0, limit)];
    var parts := Carve(Block(0, limit), 0, units);
    assert free[..0] + parts + free[1..] == parts;
  }

  // ---------- reinsertion ----------

  /** Number of blocks that start below `off`. */
  function Position(free: seq<Block>, off: nat): (i: nat)
    ensures i <= |free|
    ensures forall j :: 0 <= j < i ==> free[j].off < off
    ensures i < |free| ==> off <= free[i].off
  {
    if free == [] || off <= free[0].off then 0 else 1 + Position(free[1..], off)
  }

  /** Index from which blocks stay as they are below the reinserted block: its left
      neighbour is merged when it ends where the block starts. */
  function MergeFrom(free: seq<Block>, b: Block): (l: nat)
    ensures l <= Position(free, b.off)
  {
    var i := Position(free, b.off);
    if i > 0 && free[i - 1].End() == b.off then i - 1 else i
  }

  /** Index from which blocks stay as they are above the reinserted block. */
  function MergeTo(free: seq<Block>, b: Block): (r: nat)
    ensures Position(free, b.off) <= r <= |free|
  {
    var i := Position(free, b.off);
    if i < |free| && b.End() == free[i].off then i + 1 else i
  }

  /** The block together with the neighbours it touches. */
  function Merged(free: seq<Block>, b: Block): Block {
    var i := Position(free, b.off);
    var lo := if MergeFrom(free, b) < i then free[i - 1].off else b.off;
    var hi := if i < MergeTo(free, b) then free[i].End() else b.End();
    Block(lo, hi - lo)
  }

  /** Insert a block in address order and merge it with the neighbours it touches. */
  function PutBack(free: seq<Block>, b: Block): seq<Block> {
    free[..MergeFrom(free, b)] + [Merged(free, b)] + free[MergeTo(free, b)..]
  }

  /** The block merged with its right neighbour only. */
  function MergedRight(free: seq<Block>, b: Block): Block {
    var i := Position(free, b.off);
    Block(b.off, if i < MergeTo(free, b) then b.size + free[i].size else b.size)
  }

  /** Reinsertion seen as the two writes that perform it: first the block with what follows it,
      then its predecessor. */
  lemma PutBackShape(free: seq<Block>, b: Block)
    ensures var i, b', post := Position(free, b.off), MergedRight(free, b), free[MergeTo(free, b)..];
      PutBack(free, b) ==
        if i == 0 then [b'] + post
        else if free[i - 1].End() == b.off then
          free[..i - 1] + [Block(free[i - 1].off, free[i - 1].size + b'.size)] + post
        else free[..i - 1] + [free[i - 1]] + ([b'] + post)
  {
    var i, b', post := Position(free, b.off), MergedRight(free, b), free[MergeTo(free, b)..];
    MergedIs(free, b);
    if i == 0 {
      assert free[..0] + [b'] == [b'];
    } else if free[i - 1].End() != b.off {
      Regroup(free, i, b', post);
    }
  }

  lemma MergedIs(free: seq<Block>, b: Block)
    ensures var i, b' := Position(free, b.off), MergedRight(free, b);
      Merged(free, b) ==
        if i > 0 && free[i - 1].End() == b.off then Block(free[i - 1].off, free[i - 1].size + b'.size) else b'
  {
  }

  /** Into an empty list. */
  lemma PutBackFirst(free: seq<Block>, b: Block)
    requires free == []
    ensures PutBack(free, b) == [b]
  {
  }

  lemma Regroup(free: seq<Block>, i: nat, b: Block, post: seq<Block>)
    requires 0 < i <= |free|
    ensures free[..i] + [b] + post == free[..i - 1] + [free[i - 1]] + ([b] + post)
  {
  }

  /** No unit of the block is free. */
  ghost predicate Outside(free: seq<Block>, b: Block) {
    forall u :: b.off <= u < b.End() ==> !Covers(free, u)
  }

  /** A free-standing block goes between its neighbours without overlapping them. */
  lemma GapAround(free: seq<Block>, limit: nat, b: Block)
    requires Canonical(free, limit) && b.size >= 1 && Outside(free, b)
    ensures var i := Position(free, b.off);
      && (forall j :: 0 <= j < i ==> free[j].End() <= b.off)
      && (forall j :: i <= j < |free| ==> b.End() <= free[j].off)
  {
    var i := Position(free, b.off);
    forall j | 0 <= j < i ensures free[j].End() <= b.off {
      assert !Covers(free, b.off);
    }
    forall j | i <= j < |free| ensures b.End() <= free[j].off {
      assert i < j ==> free[i].End() < free[j].off;
      assert b.off <= free[j].off && Covers(free, free[j].off);
    }
  }

  /** The merged block keeps a gap to the blocks that stay as they are. */
  lemma MergedGaps(free: seq<Block>, limit: nat, b: Block)
    requires Canonical(free, limit) && b.size >= 1 && b.End() <= limit && Outside(free, b)
    ensures Merged(free, b).size >= 1 && Merged(free, b).End() <= limit
    ensures forall j :: 0 <= j < MergeFrom(free, b) ==> free[j].End() < Merged(free, b).off
    ensures forall j :: MergeTo(free, b) <= j < |free| ==> Merged(free, b).End() < free[j].off
  {
    var i := Position(free, b.off);
    var l, r := MergeFrom(free, b), MergeTo(free, b);
    GapAround(free, limit, b);
    forall j | 0 <= j < l ensures free[j].End() < Merged(free, b).off {
      assert j < i - 1 ==> free[j].End() < free[i - 1].off;
    }
    forall j | r <= j < |free| ensures Merged(free, b).End() < free[j].off {
      assert i < j ==> free[i].End() < free[j].off;
    }
  }

  /** Reinserting adds exactly the units of the block and keeps the list canonical. */
  lemma PutBackAddsRun(free: seq<Block>, limit: nat, b: Block)
    requires Canonical(free, limit) && b.size >= 1 && b.End() <= limit && Outside(free, b)
    ensures Canonical(PutBack(free, b), limit)
    ensures forall u :: Covers(PutBack(free, b), u) <==> Covers(free, u) || b.off <= u < b.End()
  {
    PutBackCanonical(free, limit, b);
    forall u ensures Covers(PutBack(free, b), u) <==> Covers(free, u) || b.off <= u < b.End() {
      PutBackCovers(free, b, u);
    }
  }

  lemma CanonicalParts(free: seq<Block>, limit: nat, l: nat, r: nat)
    requires Canonical(free, limit) && l <= |free| && r <= |free|
    ensures Canonical(free[..l], limit) && Canonical(free[r..], limit)
  {
  }

  lemma PutBackCanonical(free: seq<Block>, limit: nat, b: Block)
    requires Canonical(free, limit) && b.size >= 1 && b.End() <= limit && Outside(free, b)
    ensures Canonical(PutBack(free, b), limit)
  {
    var l, r := MergeFrom(free, b), MergeTo(free, b);
    var mid := [Merged(free, b)];
    MergedGaps(free, limit, b);
    CanonicalParts(free, limit, l, r);
    Join(free[..l], mid, free[r..], mid[0].off, mid[0].End(), limit);
  }

  lemma PutBackCovers(free: seq<Block>, b: Block, u: int)
    ensures Covers(PutBack(free, b), u) <==> Covers(free, u) || b.off <= u < b.End()
  {
    var i, l, r := Position(free, b.off), MergeFrom(free, b), MergeTo(free, b);
    CoversThree(free[..l], [Merged(free, b)], free[r..], u);
    CoversOne(Merged(free, b), u);
    MergedCovers(free, l, i, r, u);
  }

  lemma MergedCovers(free: seq<Block>, l: nat, i: nat, r: nat, u: int)
    requires l <= i <= r <= |free| && i - l <= 1 && r - i <= 1
    ensures Covers(free, u) <==>
      || Covers(free[..l], u) || Covers(free[r..], u)
      || (l < i && free[l].off <= u < free[l].End()) || (i < r && free[i].off <= u < free[i].End())
  {
  }

  // ---------- what an allocation and a free undo ----------

  /** Putting back what was just taken restores the very same list. */
  lemma TakeThenPutBack(free: seq<Block>, limit: nat, units: nat, align: nat)
    requires Canonical(free, limit) && units >= 1
    requires Take(free, units, align).Some?
    ensures var Taken(start, rest) := Take(free, units, align).value;
      PutBack(rest, Block(start, units)) == free
  {
    var Taken(start, rest) := Take(free, units, align).value;
    TakeRemovesRun(free, limit, units, align);
    PutBackAddsRun(rest, limit, Block(start, units));
    CanonicalUnique(PutBack(rest, Block(start, units)), free, limit);
  }

  /** Two separate blocks may be put back in either order. */
  lemma PutBackCommutes(free: seq<Block>, limit: nat, a: Block, b: Block)
    requires Canonical(free, limit) && a.size >= 1 && b.size >= 1 && a.End() <= limit && b.End() <= limit
    requires Outside(free, a) && Outside(free, b) && (a.End() <= b.off || b.End() <= a.off)
    ensures PutBack(PutBack(free, a), b) == PutBack(PutBack(free, b), a)
  {
    PutBackAddsRun(free, limit, a);
    PutBackAddsRun(free, limit, b);
    PutBackAddsRun(PutBack(free, a), limit, b);
    PutBackAddsRun(PutBack(free, b), limit, a);
    CanonicalUnique(PutBack(PutBack(free, a), b), PutBack(PutBack(free, b), a), limit);
  }

  // ---------- sizes ----------

  lemma {:induction false} TotalConcat(f: seq<Block>, g: seq<Block>)
    ensures Total(f + g) == Total(f) + Total(g)
  {
    if f == [] {
      assert f + g == g;
    } else {
      assert (f + g)[1..] == f[1..] + g;
      TotalConcat(f[1..], g);
    }
  }

  lemma TotalSplit(free: seq<Block>, i: nat)
    requires i < |free|
    ensures Total(free) == Total(free[..i]) + free[i].size + Total(free[i + 1..])
  {
    assert free == free[..i] + free[i..];
    TotalConcat(free[..i], free[i..]);
    assert free[i..][1..] == free[i + 1..];
  }

  lemma TakeTotal(free: seq<Block>, units: nat, align: nat)
    requires Take(free, units, align).Some?
    ensures Total(free) == Total(Take(free, units, align).value.rest) + units
  {
    var i := FirstFit(free, units, align);
    AlignUpLeast(free[i].off, align);
    CarveTotal(free, i, AlignUp(free[i].off, align), units);
  }

  lemma CarveTotal(free: seq<Block>, i: nat, start: nat, units: nat)
    requires i < |free| && free[i].off <= start && start + units <= free[i].End()
    ensures Total(free) == Total(free[..i] + Carve(free[i], start, units) + free[i + 1..]) + units
  {
    var b := free[i];
    var parts := Carve(b, start, units);
    TotalSplit(free, i);
    TotalConcat(free[..i], parts);
    TotalConcat(free[..i] + parts, free[i + 1..]);
    TotalConcat(if b.off < start then [Block(b.off, start - b.off)] else [],
                if start + units < b.End() then [Block(start + units, b.End() - (start + units))] else []);
  }

  lemma TotalOne(b: Block)
    ensures Total([b]) == b.size
  {
  }

  lemma TotalThree(x: seq<Block>, y: seq<Block>, z: seq<Block>)
    ensures Total(x + y + z) == Total(x) + Total(y) + Total(z)
  {
    TotalConcat(x, y);
    TotalConcat(x + y, z);
  }

  lemma TotalReplace(x: seq<Block>, y: seq<Block>, z: seq<Block>, b: Block)
    ensures Total(x + [b] + z) == Total(x + y + z) - Total(y) + b.size
  {
    TotalThree(x, y, z);
    TotalThree(x, [b], z);
    TotalOne(b);
  }

  lemma Thirds(free: seq<Block>, l: nat, r: nat)
    requires l <= r <= |free|
    ensures free[..l] + free[l..r] + free[r..] == free
  {
  }

  lemma TotalSplice(free: seq<Block>, l: nat, r: nat, b: Block)
    requires l <= r <= |free|
    ensures Total(free[..l] + [b] + free[r..]) == Total(free) - Total(free[l..r]) + b.size
  {
    Thirds(free, l, r);
    TotalReplace(free[..l], free[l..r], free[r..], b);
  }

  lemma PutBackTotal(free: seq<Block>, b: Block)
    ensures Total(PutBack(free, b)) == Total(free) + b.size
  {
    var l, r := MergeFrom(free, b), MergeTo(free, b);
    TotalSplice(free, l, r, Merged(free, b));
    TotalWindow(free, l, Position(free, b.off), r);
  }

  lemma TotalWindow(free: seq<Block>, l: nat, i: nat, r: nat)
    requires l <= i <= r <= |free| && i - l <= 1 && r - i <= 1
    ensures Total(free[l..r]) == (if l < i then free[l].size else 0) + (if i < r then free[i].size else 0)
  {
    assert free[l..r] == free[l..i] + free[i..r];
    TotalConcat(free[l..i], free[i..r]);
    assert l < i ==> free[l..i] == [free[l]];
    assert i < r ==> free[i..r] == [free[i]];
  }
}