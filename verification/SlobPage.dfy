/** One slob page: the units of the page and the fields of its struct page that the
    allocator uses, with slob_page_alloc and the in-page part of slob_free. */
module SlobPage {
  import opened Options
  import opened FreeList
  import opened SlobEncoding
  import opened SlobSizes

  /** The contents of a page: its units and the fields of its struct page. */
  datatype PageImage = PageImage(cells: seq<SlobIdx>, freelist: nat, units: nat, slobFree: bool)

  /** The units of the page decode to the free list `free`, which is canonical, and the fields
      of struct page agree with it. */
  ghost predicate ImageOk(im: PageImage, free: seq<Block>) {
    && 2 <= |im.cells| <= MAX_UNITS
    && Decode(im.cells, im.freelist) == Some(free)
    && Spaced(free, |im.cells|)
    && im.units == Total(free)
    && (im.slobFree <==> im.units > 0)
  }

  class Page {
    const mem: array<SlobIdx>
    var freelist: nat
    var units: nat
    /** The PageSlobFree flag: the page is on one of the three lists. */
    var slobFree: bool
    /** The free blocks the units store, in list order. */
    ghost var free: seq<Block>

    ghost predicate Valid()
      reads this, mem
    {
      && 2 <= mem.Length <= MAX_UNITS
      && Canonical(free, mem.Length)
      && Stores(mem[..], free, mem.Length)
      && freelist == Start(free, mem.Length)
      && units == Total(free)
      && (slobFree <==> units > 0)
    }

    /** A page fresh from the page allocator, with whatever its units hold, made one free block. */
    constructor (contents: seq<SlobIdx>)
      requires 2 <= |contents| <= MAX_UNITS
      ensures Valid() && fresh(mem) && mem.Length == |contents| && free == [Block(0, |contents|)]
    {
      var size := |contents|;
      mem := new SlobIdx[size](i requires 0 <= i < size => contents[i]);
      freelist := 0;
      units := size;
      slobFree := true;
      new;
      free := [Block(0, size)];
      ghost var before := mem[..];
      Store(0, size, size);
      StoresLink(before, [], Block(0, size), [], size);
    }

    /** A page as it is in memory. */
    constructor Load(im: PageImage, ghost list: seq<Block>)
      requires ImageOk(im, list)
      ensures Valid() && free == list && fresh(mem) && mem[..] == im.cells
    {
      SpacedIsCanonical(list, |im.cells|);
      DecodedListStored(im.cells, im.freelist);
      mem := new SlobIdx[|im.cells|](i requires 0 <= i < |im.cells| => im.cells[i]);
      freelist, units, slobFree := im.freelist, im.units, im.slobFree;
      new;
      free := list;
      assert mem[..] == im.cells;
    }

    /** The contents of the page. */
    method Save() returns (im: PageImage)
      requires Valid()
      ensures im.cells == mem[..] && ImageOk(im, free)
    {
      SpacedIsCanonical(free, mem.Length);
      StoredListDecodes(mem[..], free);
      im := PageImage(mem[..], freelist, units, slobFree);
    }

    /** set_slob */
    method Store(s: nat, size: nat, next: nat)
      requires mem.Length <= MAX_UNITS && 1 <= size && s + size <= mem.Length && next <= mem.Length
      modifies mem
      ensures mem[..] == SetSlob(old(mem[..]), s, size, next)
    {
      var offset: int := next;
      if size > 1 {
        mem[s] := size;
        mem[s + 1] := offset;
      } else {
        mem[s] := -offset;
      }
    }

    /** slob_page_alloc: first fit with alignment, cutting the block out of the stored list.
        Only free units are ever written. The size is in bytes, the alignment in units. */
    method Alloc(size: nat, align: nat) returns (r: Option<nat>)
      requires Valid() && free != [] && size >= 1
      modifies this, mem
      ensures Valid()
      ensures Take(old(free), UnitsFor(size), align).None? ==>
        r == None && free == old(free) && mem[..] == old(mem[..])
      ensures Take(old(free), UnitsFor(size), align).Some? ==>
        r == Some(Take(old(free), UnitsFor(size), align).value.start)
        && free == Take(old(free), UnitsFor(size), align).value.rest
      ensures SameOutside(old(mem[..]), mem[..], old(free))
    {
      var need := UnitsFor(size);
      var prev, cur := Walk(need, align);
      if cur.None? {
        return None;
      }
      AlignUpLeast(cur.value, align);
      var aligned := AlignUp(cur.value, align);
      Cut(prev, cur.value, aligned, need, FirstFit(free, need, align));
      r := Some(aligned);
    }

    /** The loop of slob_page_alloc: follow the stored links to the first block with room for
        the aligned request. It never reads the page end as a block. */
    method Walk(need: nat, align: nat) returns (prev: Option<nat>, fit: Option<nat>)
      requires Valid() && free != []
      ensures var i := FirstFit(free, need, align);
        && fit == (if i == |free| then None else Some(free[i].off))
        && (i < |free| ==> prev == if i == 0 then None else Some(free[i - 1].off))
    {
      prev := None;
      var cur := freelist;
      ghost var k := 0;
      while !HasRoom(cur, need, align)
        invariant 0 <= k < |free| && cur == free[k].off && cur < mem.Length
        invariant prev == if k == 0 then None else Some(free[k - 1].off)
        invariant forall j :: 0 <= j < k ==> !Fits(free[j], need, align)
        decreases |free| - k
      {
        ReadBlock(k, need, align);
        if SlobLast(mem[..], cur) {
          FirstFitIs(free, need, align, |free|);
          return prev, None;
        }
        prev, cur := Some(cur), SlobNext(mem[..], cur);
        k := k + 1;
      }
      ReadBlock(k, need, align);
      FirstFitIs(free, need, align, k);
      fit := Some(cur);
    }

    /** The block at `cur` has `need` units left after its start is aligned. */
    predicate HasRoom(cur: nat, need: nat, align: nat)
      reads mem
      requires cur < mem.Length
    {
      SlobUnits(mem[..], cur) >= need + (AlignUp(cur, align) - cur)
    }

    /** What the walk reads at the k-th free block. */
    lemma ReadBlock(k: nat, need: nat, align: nat)
      requires Valid() && k < |free|
      ensures var cur, next := free[k].off, Link(free, k, mem.Length);
        && free[k].End() <= mem.Length && (mem[cur] >= 0 ==> cur + 1 < mem.Length)
        && SlobUnits(mem[..], cur) == free[k].size && SlobNext(mem[..], cur) == next
        && (SlobLast(mem[..], cur) <==> k + 1 == |free|)
        && (HasRoom(cur, need, align) <==> Fits(free[k], need, align))
    {
      var next := Link(free, k, mem.Length);
      HoldsReads(mem[..], free[k], next);
      PageEndIsAligned(next, mem.Length);
    }

    /** The part of slob_page_alloc that takes `need` units at `aligned` out of the block at
        `cur`, the k-th free block, whose predecessor in the list is `prev`. */
    method Cut(prev: Option<nat>, cur: nat, aligned: nat, need: nat, ghost k: nat)
      requires Valid() && k < |free| && cur == free[k].off && need >= 1
      requires prev == if k == 0 then None else Some(free[k - 1].off)
      requires cur <= aligned && aligned + need <= free[k].End()
      modifies this, mem
      ensures Valid()
      ensures free == old(free[..k] + Carve(free[k], aligned, need) + free[k + 1..])
      ensures forall u :: 0 <= u < mem.Length && !Covers(old(free), u) ==> mem[u] == old(mem[u])
    {
      ghost var pre, b, post := free[..k], free[k], free[k + 1..];
      ghost var after := pre + Carve(b, aligned, need) + post;
      StoredListLinked(mem[..], free, k);
      CutRemovesRun(free, mem.Length, k, aligned, need);
      CarveTotal(free, k, aligned, need);
      CarveIsFront(pre, b, post, aligned, need);
      CutFrame(free, k);
      if aligned > cur {
        SplitHead(cur, aligned, pre, b, post);
        Unlink(Some(cur), aligned, need, pre + [Block(cur, aligned - cur)], Block(aligned, b.End() - aligned), post, after);
      } else {
        Unlink(prev, cur, need, pre, b, post, after);
      }
    }

    /** Fragment the head of the block at `cur` so that a block starts at `aligned`. */
    method SplitHead(cur: nat, aligned: nat, ghost pre: seq<Block>, ghost b: Block, ghost post: seq<Block>)
      requires Linked(mem[..], pre, b, post) && cur == b.off && cur < aligned < b.End()
      modifies mem
      ensures Linked(mem[..], pre + [Block(cur, aligned - cur)], Block(aligned, b.End() - aligned), post)
      ensures forall u :: 0 <= u < mem.Length && !(b.off <= u < b.End()) ==> mem[u] == old(mem[u])
    {
      HoldsReads(mem[..], b, Start(post, mem.Length));
      SplitHeadStores(mem[..], pre, b, post, aligned);
      var avail := SlobUnits(mem[..], cur);
      var next := SlobNext(mem[..], cur);
      Store(aligned, avail - (aligned - cur), next);
      Store(cur, aligned - cur, aligned);
    }

    /** Take `need` units off the front of the block at `cur`, or all of it. */
    method Unlink(prev: Option<nat>, cur: nat, need: nat,
                  ghost pre: seq<Block>, ghost b: Block, ghost post: seq<Block>, ghost after: seq<Block>)
      requires Linked(mem[..], pre, b, post) && cur == b.off && 1 <= need <= b.size
      requires prev == if pre == [] then None else Some(pre[|pre| - 1].off)
      requires freelist == Start(pre, b.off)
      requires after == Front(pre, b, post, need)
      requires Canonical(after, mem.Length) && units == Total(after) + need && slobFree
      modifies this, mem
      ensures Valid() && free == after
      ensures forall u :: 0 <= u < mem.Length && !(b.off <= u < b.End()) && !InLast(pre, u) ==> mem[u] == old(mem[u])
    {
      HoldsReads(mem[..], b, Start(post, mem.Length));
      var avail := SlobUnits(mem[..], cur);
      var next := SlobNext(mem[..], cur);
      if avail == need {
        Drop(prev, next, pre, b, post);
      } else {
        Shrink(prev, cur + need, avail - need, next, pre, b, post);
      }
      Charge(need, after);
    }

    /** Lower the free count, and take the page off its list when nothing is left. */
    method Charge(need: nat, ghost after: seq<Block>)
      requires 2 <= mem.Length <= MAX_UNITS && Canonical(after, mem.Length) && Stores(mem[..], after, mem.Length)
      requires freelist == Start(after, mem.Length) && units == Total(after) + need && slobFree
      modifies this`units, this`slobFree, this`free
      ensures Valid() && free == after
    {
      ghost var m := mem[..];
      units := units - need;
      if units == 0 {
        slobFree := false;
      }
      free := after;
      assert mem[..] == m;
    }

    /** Exact fit: the block is unlinked. */
    method Drop(prev: Option<nat>, next: nat, ghost pre: seq<Block>, ghost b: Block, ghost post: seq<Block>)
      requires Linked(mem[..], pre, b, post) && next == Start(post, mem.Length)
      requires prev == if pre == [] then None else Some(pre[|pre| - 1].off)
      requires freelist == Start(pre, b.off)
      modifies this`freelist, mem
      ensures Stores(mem[..], pre + post, mem.Length) && freelist == Start(pre + post, mem.Length)
      ensures forall u :: 0 <= u < mem.Length && !InLast(pre, u) ==> mem[u] == old(mem[u])
    {
      ghost var after := pre + post;
      if prev.Some? {
        DropStores(mem[..], pre, b, post);
        Store(prev.value, SlobUnits(mem[..], prev.value), next);
      } else {
        assert after == post;
        ghost var m := mem[..];
        assert Stores(m, after, mem.Length);
        freelist := next;
        assert mem[..] == m;
      }
    }

    /** Fragment: the remainder at `rest` takes the place of the block. */
    method Shrink(prev: Option<nat>, rest: nat, size: nat, next: nat,
                  ghost pre: seq<Block>, ghost b: Block, ghost post: seq<Block>)
      requires Linked(mem[..], pre, b, post) && next == Start(post, mem.Length)
      requires prev == if pre == [] then None else Some(pre[|pre| - 1].off)
      requires freelist == Start(pre, b.off) && b.off < rest < b.End() == rest + size
      modifies this`freelist, mem
      ensures Stores(mem[..], pre + [Block(rest, size)] + post, mem.Length)
      ensures freelist == Start(pre + [Block(rest, size)] + post, mem.Length)
      ensures forall u :: 0 <= u < mem.Length && !InLast(pre, u) && !(b.off <= u < b.End()) ==> mem[u] == old(mem[u])
    {
      if prev.Some? {
        ShrinkNextStores(mem[..], pre, b, post, Block(rest, size));
        Store(prev.value, SlobUnits(mem[..], prev.value), rest);
      } else {
        assert pre + [Block(rest, size)] + post == [Block(rest, size)] + post;
        ShrinkFirstStores(mem[..], b, post, Block(rest, size));
        freelist := rest;
      }
      Store(rest, size, next);
    }

    /** The part of slob_free that works inside a page which stays allocated: reinsert in
        address order and merge with the free neighbours. Units that are not free afterwards
        are not written. */
    method Free(b: nat, size: nat)
      requires Valid() && size >= 1
      requires b + UnitsFor(size) <= mem.Length && Outside(free, Block(b, UnitsFor(size)))
      modifies this, mem
      ensures Valid() && free == PutBack(old(free), Block(b, UnitsFor(size)))
      ensures SameOutside(old(mem[..]), mem[..], free)
    {
      var need := UnitsFor(size);
      ghost var block := Block(b, need);
      ghost var after := PutBack(free, block);
      PutBackAddsRun(free, mem.Length, block);
      PutBackTotal(free, block);
      if !slobFree {
        PutBackFirst(free, block);
        Reopen(b, need, after);
      } else {
        units := units + need;
        if b < freelist {
          ReinsertFirst(b, need);
        } else {
          ReinsertAfter(b, need);
        }
      }
      free := after;
    }

    /** A full page becomes partially free: the block is its whole free list. Its successor is
        b + SLOB_UNITS(PAGE_SIZE) rounded down to a page boundary, the end of the page. */
    method Reopen(b: nat, need: nat, ghost after: seq<Block>)
      requires 2 <= mem.Length <= MAX_UNITS && need >= 1 && b + need <= mem.Length && after == [Block(b, need)]
      modifies this`units, this`freelist, this`slobFree, mem
      ensures Stores(mem[..], after, mem.Length) && freelist == Start(after, mem.Length) && units == need && slobFree
      ensures forall u :: 0 <= u < mem.Length && !Covers(after, u) ==> mem[u] == old(mem[u])
    {
      units, freelist, slobFree := need, b, true;
      ReopenStores(mem[..], Block(b, need), after);
      Store(b, need, mem.Length);
    }

    ghost predicate Reinsertable(b: nat, need: nat)
      reads this, mem
    {
      && 2 <= mem.Length <= MAX_UNITS && Canonical(free, mem.Length) && Stores(mem[..], free, mem.Length)
      && freelist == Start(free, mem.Length)
      && free != [] && need >= 1 && b + need <= mem.Length && Outside(free, Block(b, need))
    }

    /** Reinsertion before the first free block. */
    method ReinsertFirst(b: nat, need: nat)
      requires Reinsertable(b, need) && b < freelist
      modifies this`freelist, mem
      ensures Stores(mem[..], PutBack(free, Block(b, need)), mem.Length)
      ensures freelist == Start(PutBack(free, Block(b, need)), mem.Length)
      ensures forall u :: 0 <= u < mem.Length && !Covers(PutBack(free, Block(b, need)), u) ==> mem[u] == old(mem[u])
    {
      ReinsertFirstStores(mem[..], free, Block(b, need));
      var n, next := AbsorbFirst(b, need);
      Store(b, n, next);
      ghost var m := mem[..];
      freelist := b;
      assert mem[..] == m;
    }

    /** The block grows over the first free block when that starts where the block ends. */
    method AbsorbFirst(b: nat, need: nat) returns (n: nat, next: nat)
      requires Reinsertable(b, need) && b < freelist
      ensures n == MergedRight(free, Block(b, need)).size
      ensures next == Start(free[MergeTo(free, Block(b, need))..], mem.Length)
    {
      ReinsertFirstReads(mem[..], free, Block(b, need));
      n, next := need, freelist;
      if b + need == freelist {
        n, next := need + SlobUnits(mem[..], freelist), SlobNext(mem[..], freelist);
      }
    }

    /** Reinsertion behind the last free block that starts below b. */
    method ReinsertAfter(b: nat, need: nat)
      requires Reinsertable(b, need) && freelist <= b
      modifies mem
      ensures Stores(mem[..], PutBack(free, Block(b, need)), mem.Length)
      ensures freelist == Start(PutBack(free, Block(b, need)), mem.Length)
      ensures forall u :: 0 <= u < mem.Length && !Covers(PutBack(free, Block(b, need)), u) ==> mem[u] == old(mem[u])
    {
      var prev, next := FindGap(b, need);
      ghost var pre, p, b', post := ReinsertPlan(mem[..], free, Block(b, need));
      var n, after := Absorb(prev, next, b, need);
      PlaceBehind(prev, b, n, after, pre, p, b', post);
    }

    /** Write the block and its predecessor. */
    method PlaceBehind(prev: nat, b: nat, n: nat, after: nat,
                       ghost pre: seq<Block>, ghost p: Block, ghost b': Block, ghost post: seq<Block>)
      requires Between(mem[..], pre, p, b', post)
      requires prev == p.off && b == b'.off && n == b'.size && after == Start(post, mem.Length)
      modifies mem
      ensures Stores(mem[..], Placed(pre, p, b', post), mem.Length)
      ensures forall u :: 0 <= u < mem.Length && !(p.off <= u < p.End()) && !(b'.off <= u < b'.End()) ==> mem[u] == old(mem[u])
    {
      PlaceStores(mem[..], pre, p, b', post);
      Store(b, n, after);
      ghost var m := mem[..];
      JoinedReads(m, pre, p, b', post);
      JoinedStores(m, pre, p, b', post);
      JoinedFrame(m, p, b');
      JoinPrev(prev, b);
    }

    /** The block grows over a free block that starts where it ends; the page end is none. */
    method Absorb(prev: nat, next: nat, b: nat, need: nat) returns (n: nat, after: nat)
      requires Reinsertable(b, need) && Position(free, b) > 0
      requires prev == free[Position(free, b) - 1].off && next == Link(free, Position(free, b) - 1, mem.Length)
      ensures n == MergedRight(free, Block(b, need)).size
      ensures after == Start(free[MergeTo(free, Block(b, need))..], mem.Length)
    {
      ReinsertReads(mem[..], free, Block(b, need));
      n, after := need, next;
      if !SlobLast(mem[..], prev) && b + need == next {
        n, after := need + SlobUnits(mem[..], next), SlobNext(mem[..], next);
      }
    }

    /** Merge the block into its predecessor when they touch, otherwise link it behind. */
    method JoinPrev(prev: nat, b: nat)
      requires prev < mem.Length && b < mem.Length <= MAX_UNITS && (mem[b] >= 0 ==> b + 1 < mem.Length)
      requires prev + SlobUnits(mem[..], prev) <= b && b + SlobUnits(mem[..], b) <= mem.Length
      requires 0 <= SlobNext(mem[..], b) <= mem.Length
      modifies mem
      ensures mem[..] == Joined(old(mem[..]), prev, b)
    {
      if prev + SlobUnits(mem[..], prev) == b {
        Store(prev, SlobUnits(mem[..], b) + SlobUnits(mem[..], prev), SlobNext(mem[..], b));
      } else {
        Store(prev, SlobUnits(mem[..], prev), b);
      }
    }

    /** The walk of slob_free to the reinsertion point. It stops at the page end, which it
        never reads as a block. */
    method FindGap(b: nat, ghost need: nat) returns (prev: nat, next: nat)
      requires Reinsertable(b, need) && freelist <= b
      ensures var i := Position(free, b);
        i > 0 && prev == free[i - 1].off && next == Link(free, i - 1, mem.Length)
    {
      assert Covers(free, free[0].off) && !Covers(free, b);
      ghost var k := 0;
      prev := freelist;
      HoldsReads(mem[..], free[0], Link(free, 0, mem.Length));
      next := SlobNext(mem[..], prev);
      while b > next
        invariant 0 <= k < |free| && prev == free[k].off && next == Link(free, k, mem.Length)
        invariant free[k].off < b
        decreases |free| - k
      {
        HoldsReads(mem[..], free[k + 1], Link(free, k + 1, mem.Length));
        prev := next;
        next := SlobNext(mem[..], prev);
        k := k + 1;
      }
      PositionIs(free, b, k + 1);
    }
  }

  lemma PositionIs(free: seq<Block>, off: nat, k: nat)
    requires 1 <= k <= |free|
    requires forall i, j :: 0 <= i < j < |free| ==> free[i].End() < free[j].off
    requires free[k - 1].off < off && (k < |free| ==> off <= free[k].off)
    ensures Position(free, off) == k
  {
    assert forall i :: 0 <= i < k ==> free[i].off <= free[k - 1].off;
  }

  /** Unit `u` lies in the last block of the list. */
  ghost predicate InLast(free: seq<Block>, u: int) {
    free != [] && free[|free| - 1].off <= u < free[|free| - 1].End()
  }

  lemma CutFrame(free: seq<Block>, k: nat)
    requires k < |free|
    ensures forall u :: !Covers(free, u) ==> !InLast(free[..k], u) && !(free[k].off <= u < free[k].End())
  {
    assert k > 0 ==> free[..k][k - 1] == free[k - 1];
  }

  lemma {:induction false} FirstFitIs(free: seq<Block>, units: nat, align: nat, k: nat)
    requires k <= |free|
    requires forall j :: 0 <= j < k ==> !Fits(free[j], units, align)
    requires k < |free| ==> Fits(free[k], units, align)
    ensures FirstFit(free, units, align) == k
  {
  }
}
