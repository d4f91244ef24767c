/** How a free list is stored in the free units of its own page.

    A unit is a 16-bit slobidx_t. A free block of two or more units holds its size in
    the first unit and the offset of the next free block in the second; a block of one
    unit holds the negated offset. The page end, offset U, terminates the list. */
module SlobEncoding {
  import opened Options
  import opened FreeList

  const MAX_UNITS: nat := 0x7fff

  /** slobidx_t when PAGE_SIZE <= 32767 * 2. */
  type SlobIdx = x: int | -0x8000 <= x <= 0x7fff

  /** How many units of a block its header occupies. */
  function HeaderUnits(size: nat): nat { if size > 1 then 2 else 1 }

  function SetSlob(m: seq<SlobIdx>, s: nat, size: nat, next: nat): seq<SlobIdx>
    requires 1 <= size <= MAX_UNITS && s + HeaderUnits(size) <= |m| && next <= MAX_UNITS
  {
    var offset: int := next;
    if size > 1 then m[s := size][s + 1 := offset] else m[s := -offset]
  }

  function SlobUnits(m: seq<SlobIdx>, s: nat): int
    requires s < |m|
  {
    if m[s] > 0 then m[s] else 1
  }

  function SlobNext(m: seq<SlobIdx>, s: nat): int
    requires s < |m| && (m[s] >= 0 ==> s + 1 < |m|)
  {
    var head: int := m[s];
    if head < 0 then -head else m[s + 1]
  }

  /** The next pointer is page aligned, that is, it is the page end. */
  predicate SlobLast(m: seq<SlobIdx>, s: nat)
    requires s < |m| && (m[s] >= 0 ==> s + 1 < |m|)
  {
    SlobNext(m, s) % |m| == 0
  }

  /** Reading back what was written, for every block and every successor in 1..U. */
  lemma SetSlobRoundTrip(m: seq<SlobIdx>, s: nat, size: nat, next: nat)
    requires |m| <= MAX_UNITS && 1 <= size && s + size <= |m| && 1 <= next <= |m|
    ensures var m' := SetSlob(m, s, size, next);
      && |m'| == |m|
      && SlobUnits(m', s) == size
      && SlobNext(m', s) == next
      && (SlobLast(m', s) <==> next == |m|)
      && (forall u :: 0 <= u < |m| && !(s <= u < s + size) ==> m'[u] == m[u])
  {
    PageEndIsAligned(next, |m|);
  }

  lemma PageEndIsAligned(next: nat, units: nat)
    requires 1 <= next <= units
    ensures next % units == 0 <==> next == units
  {
  }

  /** Only units of the list `free` differ. */
  ghost predicate SameOutside(m: seq<SlobIdx>, m': seq<SlobIdx>, free: seq<Block>) {
    |m'| == |m| && forall u :: 0 <= u < |m| && !Covers(free, u) ==> m'[u] == m[u]
  }

  // ---------- whole lists ----------

  /** The units of block `b` store its size and the successor `next`. */
  ghost predicate Holds(m: seq<SlobIdx>, b: Block, next: int) {
    && 1 <= b.size && b.End() <= |m|
    && if b.size > 1 then m[b.off] == b.size && m[b.off + 1] == next else m[b.off] == -next
  }

  lemma HoldsReads(m: seq<SlobIdx>, b: Block, next: int)
    requires Holds(m, b, next) && next >= 1
    ensures m[b.off] >= 0 ==> b.off + 1 < |m|
    ensures SlobUnits(m, b.off) == b.size && SlobNext(m, b.off) == next
  {
  }

  function Start(free: seq<Block>, end: int): int {
    if free == [] then end else free[0].off
  }

  /** Where block i of the list points: to the next block, or to `end`. */
  function Link(free: seq<Block>, i: nat, end: int): int {
    if i + 1 < |free| then free[i + 1].off else end
  }

  /** `m` stores the list `free`, whose last block points to `end`. */
  ghost predicate Stores(m: seq<SlobIdx>, free: seq<Block>, end: int) {
    forall i {:trigger Link(free, i, end)} :: 0 <= i < |free| ==> Holds(m, free[i], Link(free, i, end))
  }

  /** In address order and disjoint, but perhaps not yet merged. */
  ghost predicate Ordered(free: seq<Block>, limit: nat) {
    && (forall i :: 0 <= i < |free| ==> free[i].size >= 1 && free[i].End() <= limit)
    && (forall i, j :: 0 <= i < j < |free| ==> free[i].End() <= free[j].off)
  }

  /** The free list that starts at offset `s`, if the units there are what set_slob writes: a size
      above 1 or a negated link, and links that go up to the page end. */
  function Decode(m: seq<SlobIdx>, s: nat): Option<seq<Block>>
    decreases |m| - s
  {
    if s == |m| then Some([])
    else if s > |m| || 0 <= m[s] <= 1 || (m[s] > 1 && s + 1 >= |m|) then None
    else
      var next := SlobNext(m, s);
      if next < s + SlobUnits(m, s) || next > |m| then None
      else
        var rest := Decode(m, next);
        if rest.None? then None else Some([Block(s, SlobUnits(m, s))] + rest.value)
  }

  /** The stored units decode to exactly the list they store. */
  lemma {:induction false} StoredListDecodes(m: seq<SlobIdx>, free: seq<Block>)
    requires Ordered(free, |m|) && Stores(m, free, |m|)
    ensures Start(free, |m|) >= 0 && Decode(m, Start(free, |m|)) == Some(free)
  {
    if free != [] {
      var b, rest := free[0], free[1..];
      assert Holds(m, free[0], Link(free, 0, |m|));
      assert rest != [] ==> b.End() <= rest[0].off;
      HoldsReads(m, b, Start(rest, |m|));
      StoresTail(m, free, |m|);
      StoredListDecodes(m, rest);
      assert free == [b] + rest;
    }
  }

  /** What decodes to a list stores it. */
  lemma {:induction false} DecodedListStored(m: seq<SlobIdx>, s: nat)
    requires Decode(m, s).Some?
    ensures var free := Decode(m, s).value;
      Stores(m, free, |m|) && Start(free, |m|) == s && forall i :: 0 <= i < |free| ==> s <= free[i].off
    decreases |m| - s
  {
    if s < |m| {
      var b, next := Block(s, SlobUnits(m, s)), SlobNext(m, s);
      var rest := Decode(m, next).value;
      DecodedListStored(m, next);
      assert Holds(m, b, next);
      assert Stores(m, [b], next);
      StoresConcat(m, [b], rest, |m|);
    }
  }

  lemma StoresTail(m: seq<SlobIdx>, free: seq<Block>, end: int)
    requires free != [] && Stores(m, free, end)
    ensures Stores(m, free[1..], end)
  {
    var rest := free[1..];
    forall i | 0 <= i < |rest| ensures Holds(m, rest[i], Link(rest, i, end)) {
      assert Holds(m, free[i + 1], Link(free, i + 1, end));
    }
  }

  lemma StoresConcat(m: seq<SlobIdx>, f: seq<Block>, g: seq<Block>, end: int)
    ensures Stores(m, f + g, end) <==> Stores(m, f, Start(g, end)) && Stores(m, g, end)
  {
    var all := f + g;
    if Stores(m, f, Start(g, end)) && Stores(m, g, end) {
      forall i | 0 <= i < |all| ensures Holds(m, all[i], Link(all, i, end)) {
        assert i < |f| ==> Holds(m, f[i], Link(f, i, Start(g, end)));
        assert i >= |f| ==> Holds(m, g[i - |f|], Link(g, i - |f|, end));
      }
    }
    if Stores(m, all, end) {
      forall i | 0 <= i < |f| ensures Holds(m, f[i], Link(f, i, Start(g, end))) {
        assert Holds(m, all[i], Link(all, i, end));
      }
      forall i | 0 <= i < |g| ensures Holds(m, g[i], Link(g, i, end)) {
        assert Holds(m, all[|f| + i], Link(all, |f| + i, end));
      }
    }
  }

  lemma StoresFrame(m: seq<SlobIdx>, m': seq<SlobIdx>, free: seq<Block>, end: int)
    requires Stores(m, free, end) && |m'| == |m|
    requires forall u :: 0 <= u < |m| && Covers(free, u) ==> m'[u] == m[u]
    ensures Stores(m', free, end)
  {
  }

  /** The block shares no unit with the blocks of the list. */
  ghost predicate Apart(free: seq<Block>, b: Block) {
    forall i :: 0 <= i < |free| ==> free[i].End() <= b.off || b.End() <= free[i].off
  }

  /** Writing a block header leaves every list apart from the block as it is. */
  lemma StoresKeeps(m: seq<SlobIdx>, b: Block, next: nat, free: seq<Block>, end: int)
    requires |m| <= MAX_UNITS && 1 <= b.size && b.End() <= |m| && next <= |m|
    requires Stores(m, free, end) && Apart(free, b)
    ensures Stores(SetSlob(m, b.off, b.size, next), free, end)
  {
    StoresFrame(m, SetSlob(m, b.off, b.size, next), free, end);
  }

  /** One set_slob on `b` completes a list whose other parts are in place. */
  lemma StoresLink(m: seq<SlobIdx>, pre: seq<Block>, b: Block, post: seq<Block>, end: nat)
    requires |m| <= MAX_UNITS && 1 <= b.size && b.End() <= |m| && end <= |m|
    requires Stores(m, pre, b.off) && Stores(m, post, end)
    requires Apart(pre, b) && Apart(post, b)
    ensures 0 <= Start(post, end) <= |m|
    ensures Stores(SetSlob(m, b.off, b.size, Start(post, end)), pre + [b] + post, end)
  {
    var next := Start(post, end);
    assert post != [] ==> Holds(m, post[0], Link(post, 0, end));
    var m' := SetSlob(m, b.off, b.size, next);
    StoresKeeps(m, b, next, pre, b.off);
    StoresKeeps(m, b, next, post, end);
    assert Stores(m', [b], next);
    StoresConcat(m', [b], post, end);
    StoresConcat(m', pre, [b] + post, end);
    assert pre + [b] + post == pre + ([b] + post);
  }

  // ---------- the list around one block ----------

  ghost predicate Below(free: seq<Block>, x: int) {
    forall i :: 0 <= i < |free| ==> free[i].End() <= x
  }

  ghost predicate Above(free: seq<Block>, x: int) {
    forall i :: 0 <= i < |free| ==> x <= free[i].off
  }

  /** The units store pre + [b] + post, in address order but perhaps with neighbours that touch. */
  ghost predicate Linked(m: seq<SlobIdx>, pre: seq<Block>, b: Block, post: seq<Block>) {
    && 2 <= |m| <= MAX_UNITS
    && Ordered(pre, |m|) && Ordered(post, |m|)
    && Below(pre, b.off) && Above(post, b.End())
    && Stores(m, pre, b.off)
    && Holds(m, b, Start(post, |m|))
    && Stores(m, post, |m|)
  }

  lemma StoresParts(m: seq<SlobIdx>, free: seq<Block>, end: int, k: nat)
    requires Stores(m, free, end) && k <= |free|
    ensures Stores(m, free[..k], Start(free[k..], end)) && Stores(m, free[k..], end)
  {
    assert free == free[..k] + free[k..];
    StoresConcat(m, free[..k], free[k..], end);
  }

  lemma StoredListLinked(m: seq<SlobIdx>, free: seq<Block>, k: nat)
    requires 2 <= |m| <= MAX_UNITS && Canonical(free, |m|) && Stores(m, free, |m|) && k < |free|
    ensures Linked(m, free[..k], free[k], free[k + 1..])
    ensures Start(free, |m|) == Start(free[..k], free[k].off)
  {
    StoresParts(m, free, |m|, k);
    StoresParts(m, free, |m|, k + 1);
    assert Holds(m, free[k], Link(free, k, |m|));
  }

  lemma OrderedAppend(pre: seq<Block>, b: Block, limit: nat)
    requires Ordered(pre, limit) && Below(pre, b.off) && b.size >= 1 && b.End() <= limit
    ensures Ordered(pre + [b], limit) && Below(pre + [b], b.End())
  {
  }

  lemma SplitTailHolds(m: seq<SlobIdx>, head: Block, tail: Block, next: nat)
    requires |m| <= MAX_UNITS && next <= |m|
    requires 1 <= head.size && head.End() == tail.off && 1 <= tail.size && tail.End() <= |m|
    ensures Holds(SetSlob(SetSlob(m, tail.off, tail.size, next), head.off, head.size, tail.off), tail, next)
  {
  }

  /** Fragmenting the head of a block so that a block starts at `aligned`. */
  lemma SplitHeadStores(m: seq<SlobIdx>, pre: seq<Block>, b: Block, post: seq<Block>, aligned: nat)
    requires Linked(m, pre, b, post) && b.off < aligned < b.End()
    ensures var m1 := SetSlob(m, aligned, b.End() - aligned, Start(post, |m|));
      var m2 := SetSlob(m1, b.off, aligned - b.off, aligned);
      Linked(m2, pre + [Block(b.off, aligned - b.off)], Block(aligned, b.End() - aligned), post)
  {
    var head, tail := Block(b.off, aligned - b.off), Block(aligned, b.End() - aligned);
    var next := Start(post, |m|);
    var m1 := SetSlob(m, tail.off, tail.size, next);
    StoresKeeps(m, tail, next, pre, b.off);
    StoresKeeps(m, tail, next, post, |m|);
    SplitHeadLinked(m1, pre, head, tail, post);
    SplitTailHolds(m, head, tail, next);
  }

  lemma SplitHeadLinked(m: seq<SlobIdx>, pre: seq<Block>, head: Block, tail: Block, post: seq<Block>)
    requires |m| <= MAX_UNITS && 1 <= head.size && 1 <= tail.size && head.End() == tail.off && tail.End() <= |m|
    requires Ordered(pre, |m|) && Below(pre, head.off) && Stores(m, pre, head.off)
    requires Above(post, tail.End()) && Stores(m, post, |m|)
    ensures var m2 := SetSlob(m, head.off, head.size, tail.off);
      Ordered(pre + [head], |m|) && Below(pre + [head], tail.off)
      && Stores(m2, pre + [head], tail.off) && Stores(m2, post, |m|)
  {
    StoresKeeps(m, head, tail.off, post, |m|);
    StoresLink(m, pre, head, [], tail.off);
    assert pre + [head] + [] == pre + [head];
    OrderedAppend(pre, head, |m|);
  }

  /** The last block before `b` and what it stores. */
  lemma LastBefore(m: seq<SlobIdx>, pre: seq<Block>, b: Block, post: seq<Block>) returns (front: seq<Block>, p: Block)
    requires Linked(m, pre, b, post) && pre != []
    ensures pre == front + [p] && p == pre[|pre| - 1]
    ensures Stores(m, front, p.off) && SlobUnits(m, p.off) == p.size
    ensures p.size >= 1 && p.End() <= b.off && Below(front, p.off)
  {
    p, front := pre[|pre| - 1], pre[..|pre| - 1];
    StoresConcat(m, front, [p], b.off);
    assert Holds(m, pre[|pre| - 1], Link(pre, |pre| - 1, b.off));
    HoldsReads(m, p, b.off);
  }

  /** Dropping a whole block: its predecessor is linked to its successor. */
  lemma DropStores(m: seq<SlobIdx>, pre: seq<Block>, b: Block, post: seq<Block>)
    requires Linked(m, pre, b, post) && pre != []
    ensures var p := pre[|pre| - 1];
      && SlobUnits(m, p.off) == p.size
      && Stores(SetSlob(m, p.off, p.size, Start(post, |m|)), pre + post, |m|)
  {
    var front, p := LastBefore(m, pre, b, post);
    StoresLink(m, front, p, post, |m|);
  }

  /** Taking the front of the first block: what remains is written. */
  lemma ShrinkFirstStores(m: seq<SlobIdx>, b: Block, post: seq<Block>, rest: Block)
    requires Linked(m, [], b, post) && b.off < rest.off < b.End() == rest.End()
    ensures Stores(SetSlob(m, rest.off, rest.size, Start(post, |m|)), [rest] + post, |m|)
  {
    StoresLink(m, [], rest, post, |m|);
    assert [] + [rest] == [rest];
  }

  /** Taking the front of a later block: its predecessor is linked to what remains, then the
      remainder is written. */
  lemma ShrinkNextStores(m: seq<SlobIdx>, pre: seq<Block>, b: Block, post: seq<Block>, rest: Block)
    requires Linked(m, pre, b, post) && pre != [] && b.off < rest.off < b.End() == rest.End()
    ensures var p := pre[|pre| - 1];
      && SlobUnits(m, p.off) == p.size
      && Stores(SetSlob(SetSlob(m, p.off, p.size, rest.off), rest.off, rest.size, Start(post, |m|)),
                pre + [rest] + post, |m|)
  {
    var front, p := LastBefore(m, pre, b, post);
    StoresLink(m, front, p, [], rest.off);
    assert front + [p] + [] == pre;
    StoresKeeps(m, p, rest.off, post, |m|);
    StoresLink(SetSlob(m, p.off, p.size, rest.off), pre, rest, post, |m|);
  }

  /** A full page becomes one with the freed block as its whole list. */
  lemma ReopenStores(m: seq<SlobIdx>, b: Block, after: seq<Block>)
    requires 2 <= |m| <= MAX_UNITS && b.size >= 1 && b.End() <= |m| && after == [b]
    ensures Stores(SetSlob(m, b.off, b.size, |m|), after, |m|)
    ensures forall u :: b.off <= u < b.End() ==> Covers(after, u)
  {
    StoresLink(m, [], b, [], |m|);
    assert [] + [b] + [] == after;
    forall u | b.off <= u < b.End() ensures Covers(after, u) {
      CoversOne(b, u);
    }
  }

  /** The neighbourhood of a block that goes back into a list. */
  lemma ReinsertPlace(free: seq<Block>, limit: nat, b: Block)
    requires Canonical(free, limit) && b.size >= 1 && b.End() <= limit && Outside(free, b)
    ensures var i, b' := Position(free, b.off), MergedRight(free, b);
      && b'.End() <= limit && Above(free[MergeTo(free, b)..], b'.End())
      && (i > 0 ==> free[i - 1].End() <= b.off && Below(free[..i - 1], free[i - 1].off))
  {
    GapAround(free, limit, b);
    MergedGaps(free, limit, b);
    assert MergedRight(free, b).End() == Merged(free, b).End();
  }

  /** What slob_free reads at the first free block when the block goes before it. */
  lemma ReinsertFirstReads(m: seq<SlobIdx>, free: seq<Block>, b: Block)
    requires 2 <= |m| <= MAX_UNITS && Canonical(free, |m|) && Stores(m, free, |m|)
    requires free != [] && b.off < free[0].off
    ensures var b', next := MergedRight(free, b), Start(free[MergeTo(free, b)..], |m|);
      && free[0].off < |m| && (m[free[0].off] >= 0 ==> free[0].off + 1 < |m|)
      && if b.End() == free[0].off
         then b'.size == b.size + SlobUnits(m, free[0].off) && next == SlobNext(m, free[0].off)
         else b'.size == b.size && next == free[0].off
  {
    HoldsReads(m, free[0], Link(free, 0, |m|));
  }

  /** Reinsertion before the first free block takes one write. */
  lemma ReinsertFirstStores(m: seq<SlobIdx>, free: seq<Block>, b: Block)
    requires 2 <= |m| <= MAX_UNITS && Canonical(free, |m|) && Stores(m, free, |m|)
    requires b.size >= 1 && b.End() <= |m| && Outside(free, b)
    requires Position(free, b.off) == 0
    ensures var b', next := MergedRight(free, b), Start(free[MergeTo(free, b)..], |m|);
      && 0 <= next <= |m| && b'.End() <= |m|
      && Stores(SetSlob(m, b.off, b'.size, next), PutBack(free, b), |m|)
      && Start(PutBack(free, b), |m|) == b.off
      && (forall u :: b.off <= u < b'.End() ==> Covers(PutBack(free, b), u))
  {
    var b', r := MergedRight(free, b), MergeTo(free, b);
    ReinsertPlace(free, |m|, b);
    PutBackShape(free, b);
    StoresParts(m, free, |m|, r);
    StoresLink(m, [], b', free[r..], |m|);
    assert [] + [b'] + free[r..] == PutBack(free, b);
    assert PutBack(free, b)[0] == b';
  }

  /** What slob_free reads behind the reinsertion point. */
  lemma ReinsertReads(m: seq<SlobIdx>, free: seq<Block>, b: Block)
    requires 2 <= |m| <= MAX_UNITS && Canonical(free, |m|) && Stores(m, free, |m|)
    requires b.size >= 1 && b.End() <= |m| && Outside(free, b) && Position(free, b.off) > 0
    ensures var i, b', r := Position(free, b.off), MergedRight(free, b), MergeTo(free, b);
      var p, link, next := free[i - 1], Link(free, i - 1, |m|), Start(free[r..], |m|);
      && Holds(m, p, link) && 1 <= link <= |m| && 1 <= next <= |m| && b'.End() <= |m|
      && SlobUnits(m, p.off) == p.size && SlobNext(m, p.off) == link
      && (SlobLast(m, p.off) <==> link == |m|)
      && (if !SlobLast(m, p.off) && b.End() == link
          then link < |m| && b'.size == b.size + SlobUnits(m, link)
               && (m[link] >= 0 ==> link + 1 < |m|) && next == SlobNext(m, link)
          else b'.size == b.size && next == link)
  {
    var i := Position(free, b.off);
    ReinsertPlace(free, |m|, b);
    HoldsReads(m, free[i - 1], Link(free, i - 1, |m|));
    PageEndIsAligned(Link(free, i - 1, |m|), |m|);
    if i < |free| {
      HoldsReads(m, free[i], Link(free, i, |m|));
    }
  }

  /** Block `b` is to go right behind block `p`; the list before p and the list after b are stored. */
  ghost predicate Between(m: seq<SlobIdx>, pre: seq<Block>, p: Block, b: Block, post: seq<Block>) {
    && |m| <= MAX_UNITS
    && 1 <= p.size && 1 <= b.size && p.End() <= b.off && b.End() <= |m|
    && SlobUnits(m, p.off) == p.size
    && Below(pre, p.off) && Above(post, b.End())
    && Stores(m, pre, p.off) && Stores(m, post, |m|)
  }

  lemma PartsStored(m: seq<SlobIdx>, free: seq<Block>, k: nat, r: nat)
    requires Stores(m, free, |m|) && k < |free| && r <= |free|
    ensures Stores(m, free[..k], free[k].off) && Stores(m, free[r..], |m|)
  {
    StoresParts(m, free, |m|, k);
    StoresParts(m, free, |m|, r);
  }

  lemma ReinsertBetween(m: seq<SlobIdx>, free: seq<Block>, b: Block)
    requires 2 <= |m| <= MAX_UNITS && Canonical(free, |m|) && Stores(m, free, |m|)
    requires b.size >= 1 && b.End() <= |m| && Outside(free, b) && Position(free, b.off) > 0
    ensures var i, r := Position(free, b.off), MergeTo(free, b);
      Between(m, free[..i - 1], free[i - 1], MergedRight(free, b), free[r..])
  {
    var i, r := Position(free, b.off), MergeTo(free, b);
    ReinsertPlace(free, |m|, b);
    assert SlobUnits(m, free[i - 1].off) == free[i - 1].size by {
      HoldsReads(m, free[i - 1], Link(free, i - 1, |m|));
    }
    PartsStored(m, free, i - 1, r);
  }

  /** The first write: the new block with its successor. */
  lemma PlaceStores(m: seq<SlobIdx>, pre: seq<Block>, p: Block, b: Block, post: seq<Block>)
    requires Between(m, pre, p, b, post)
    ensures 0 <= Start(post, |m|) <= |m|
    ensures var m1 := SetSlob(m, b.off, b.size, Start(post, |m|));
      Between(m1, pre, p, b, post) && Stores(m1, [b] + post, |m|)
  {
    StoresLink(m, [], b, post, |m|);
    assert [] + [b] + post == [b] + post;
    StoresKeeps(m, b, Start(post, |m|), pre, p.off);
    StoresKeeps(m, b, Start(post, |m|), post, |m|);
  }

  /** The second write when the predecessor touches the block: both become one block. */
  lemma JoinStores(m: seq<SlobIdx>, pre: seq<Block>, p: Block, b: Block, post: seq<Block>)
    requires Between(m, pre, p, b, post) && Stores(m, [b] + post, |m|) && p.End() == b.off
    ensures 1 <= Start(post, |m|) <= |m|
    ensures SlobUnits(m, b.off) == b.size
    ensures (m[b.off] >= 0 ==> b.off + 1 < |m|) && SlobNext(m, b.off) == Start(post, |m|)
    ensures Stores(SetSlob(m, p.off, p.size + b.size, Start(post, |m|)),
                   pre + [Block(p.off, p.size + b.size)] + post, |m|)
  {
    assert Holds(m, ([b] + post)[0], Link([b] + post, 0, |m|));
    assert post != [] ==> Holds(m, post[0], Link(post, 0, |m|));
    HoldsReads(m, b, Start(post, |m|));
    StoresLink(m, pre, Block(p.off, p.size + b.size), post, |m|);
  }

  /** The second write when the predecessor does not touch the block. */
  lemma LinkStores(m: seq<SlobIdx>, pre: seq<Block>, p: Block, b: Block, post: seq<Block>)
    requires Between(m, pre, p, b, post) && Stores(m, [b] + post, |m|)
    ensures Stores(SetSlob(m, p.off, p.size, b.off), pre + [p] + ([b] + post), |m|)
  {
    StoresLink(m, pre, p, [b] + post, |m|);
  }

  /** The list stored once the block is in place: merged with the predecessor or linked behind it. */
  ghost function Placed(pre: seq<Block>, p: Block, b: Block, post: seq<Block>): seq<Block> {
    if p.End() == b.off then pre + [Block(p.off, p.size + b.size)] + post else pre + [p] + ([b] + post)
  }

  /** The second write of the reinsertion: the predecessor at `prev` grows over the block at `b` it
      touches, or is linked to it. */
  function Joined(m: seq<SlobIdx>, prev: nat, b: nat): seq<SlobIdx>
    requires prev < |m| && b < |m| && (m[b] >= 0 ==> b + 1 < |m|) && |m| <= MAX_UNITS
    requires prev + SlobUnits(m, prev) <= b && b + SlobUnits(m, b) <= |m| && 0 <= SlobNext(m, b) <= |m|
  {
    if prev + SlobUnits(m, prev) == b then SetSlob(m, prev, SlobUnits(m, b) + SlobUnits(m, prev), SlobNext(m, b))
    else SetSlob(m, prev, SlobUnits(m, prev), b)
  }

  lemma JoinedReads(m: seq<SlobIdx>, pre: seq<Block>, p: Block, b: Block, post: seq<Block>)
    requires Between(m, pre, p, b, post) && Stores(m, [b] + post, |m|)
    ensures b.off < |m| && (m[b.off] >= 0 ==> b.off + 1 < |m|)
    ensures SlobUnits(m, b.off) == b.size && SlobNext(m, b.off) == Start(post, |m|) && 1 <= Start(post, |m|) <= |m|
  {
    assert Holds(m, ([b] + post)[0], Link([b] + post, 0, |m|));
    assert post != [] ==> Holds(m, post[0], Link(post, 0, |m|));
    HoldsReads(m, b, Start(post, |m|));
  }

  lemma JoinedStores(m: seq<SlobIdx>, pre: seq<Block>, p: Block, b: Block, post: seq<Block>)
    requires Between(m, pre, p, b, post) && Stores(m, [b] + post, |m|)
    requires b.off < |m| && (m[b.off] >= 0 ==> b.off + 1 < |m|)
    requires SlobUnits(m, b.off) == b.size && SlobNext(m, b.off) == Start(post, |m|) && 1 <= Start(post, |m|) <= |m|
    ensures Stores(Joined(m, p.off, b.off), Placed(pre, p, b, post), |m|)
  {
    JoinedIs(m, p, b, Start(post, |m|));
    if p.End() == b.off {
      JoinStores(m, pre, p, b, post);
    } else {
      LinkStores(m, pre, p, b, post);
    }
  }

  lemma JoinedIs(m: seq<SlobIdx>, p: Block, b: Block, next: nat)
    requires |m| <= MAX_UNITS && p.size >= 1 && b.size >= 1 && p.End() <= b.off && b.End() <= |m|
    requires (m[b.off] >= 0 ==> b.off + 1 < |m|) && SlobNext(m, b.off) == next <= |m|
    requires SlobUnits(m, p.off) == p.size && SlobUnits(m, b.off) == b.size
    ensures Joined(m, p.off, b.off) ==
      if p.End() == b.off then SetSlob(m, p.off, p.size + b.size, next) else SetSlob(m, p.off, p.size, b.off)
  {
  }

  lemma JoinedFrame(m: seq<SlobIdx>, p: Block, b: Block)
    requires |m| <= MAX_UNITS && p.size >= 1 && b.size >= 1 && p.End() <= b.off && b.End() <= |m|
    requires (m[b.off] >= 0 ==> b.off + 1 < |m|) && 0 <= SlobNext(m, b.off) <= |m|
    requires SlobUnits(m, p.off) == p.size && SlobUnits(m, b.off) == b.size
    ensures var m' := Joined(m, p.off, b.off);
      |m'| == |m| && forall u :: 0 <= u < |m| && !(p.off <= u < p.End()) && !(b.off <= u < b.End()) ==> m'[u] == m[u]
  {
  }

  /** Reinsertion behind a free block: the pieces of the list around the new block. */
  lemma ReinsertPlan(m: seq<SlobIdx>, free: seq<Block>, b: Block)
    returns (pre: seq<Block>, p: Block, b': Block, post: seq<Block>)
    requires 2 <= |m| <= MAX_UNITS && Canonical(free, |m|) && Stores(m, free, |m|)
    requires b.size >= 1 && b.End() <= |m| && Outside(free, b) && Position(free, b.off) > 0
    ensures p == free[Position(free, b.off) - 1] && b' == MergedRight(free, b)
    ensures Start(post, |m|) == Start(free[MergeTo(free, b)..], |m|)
    ensures Between(m, pre, p, b', post)
    ensures PutBack(free, b) == Placed(pre, p, b', post)
    ensures Start(PutBack(free, b), |m|) == Start(free, |m|)
    ensures forall u :: p.off <= u < p.End() || b'.off <= u < b'.End() ==> Covers(PutBack(free, b), u)
  {
    var i := Position(free, b.off);
    pre, p, b', post := free[..i - 1], free[i - 1], MergedRight(free, b), free[MergeTo(free, b)..];
    ReinsertBetween(m, free, b);
    PutBackShape(free, b);
    ReinsertStart(free, b, |m|);
    ReinsertCovers(free, |m|, b);
  }

  lemma ReinsertStart(free: seq<Block>, b: Block, end: int)
    requires Position(free, b.off) > 0
    ensures Start(PutBack(free, b), end) == Start(free, end)
  {
    PutBackShape(free, b);
  }

  /** The blocks written are free afterwards. */
  lemma ReinsertCovers(free: seq<Block>, limit: nat, b: Block)
    requires Canonical(free, limit) && b.size >= 1 && b.End() <= limit && Outside(free, b) && Position(free, b.off) > 0
    ensures var p, b' := free[Position(free, b.off) - 1], MergedRight(free, b);
      forall u :: p.off <= u < p.End() || b'.off <= u < b'.End() ==> Covers(PutBack(free, b), u)
  {
    PutBackAddsRun(free, limit, b);
  }
}
