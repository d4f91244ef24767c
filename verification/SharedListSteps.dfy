/** Every step of every thread keeps the invariant. */
module SharedListSteps {
  import opened SharedList
  import opened SharedListInvariant

  // ---------- steps that leave the list alone ----------

  /** The same list and the same threads, each of which is where it was or knows what it should. */
  ghost predicate SameList(s: State, t: State, nodes: seq<nat>)
    requires forall k :: 0 <= k < |nodes| ==> nodes[k] in s.heap
  {
    && t.heap == s.heap && t.head == s.head && t.unused == s.unused && Leaving(t) == Leaving(s)
    && |t.inserters| == |s.inserters| && |t.deleters| == |s.deleters| && |t.searchers| == |s.searchers|
    && (forall j :: 0 <= j < |t.inserters| ==> t.inserters[j] == s.inserters[j] || InserterOk(t, nodes, j))
    && (forall j :: 0 <= j < |t.deleters| ==> t.deleters[j] == s.deleters[j] || DeleterOk(t, nodes, j))
    && (forall j :: 0 <= j < |t.searchers| ==> t.searchers[j] == s.searchers[j] || SearcherOk(t, nodes, j))
  }

  lemma SameListKeepsInv(s: State, t: State, nodes: seq<nat>)
    requires Inv(s, nodes) && SameList(s, t, nodes) && LocksOk(t)
    ensures Inv(t, nodes)
  {
    forall j | 0 <= j < |t.inserters| ensures InserterOk(t, nodes, j) {
      assert InserterOk(s, nodes, j);
    }
    forall j | 0 <= j < |t.deleters| ensures DeleterOk(t, nodes, j) {
      assert DeleterOk(s, nodes, j);
    }
    forall j | 0 <= j < |t.searchers| ensures SearcherOk(t, nodes, j) {
      assert SearcherOk(s, nodes, j);
    }
  }

  /** Thread i keeps the locks it has. */
  lemma InserterMoves(s: State, nodes: seq<nat>, i: nat, pc: Inserter)
    requires Inv(s, nodes) && i < |s.inserters| && InsertHolds(pc) == InsertHolds(s.inserters[i])
    requires InserterOk(SetInserter(s, i, pc), nodes, i)
    ensures Inv(SetInserter(s, i, pc), nodes)
  {
    var t := SetInserter(s, i, pc);
    LocksKept(s, t);
    SameListKeepsInv(s, t, nodes);
  }

  lemma DeleterMoves(s: State, nodes: seq<nat>, i: nat, pc: Deleter)
    requires Inv(s, nodes) && i < |s.deleters| && !pc.DelFree? && !s.deleters[i].DelFree?
    requires DeleteHoldsInsert(pc) == DeleteHoldsInsert(s.deleters[i])
    requires DeleteHoldsSearch(pc) == DeleteHoldsSearch(s.deleters[i])
    requires DeleterOk(SetDeleter(s, i, pc), nodes, i)
    ensures Inv(SetDeleter(s, i, pc), nodes)
  {
    var t := SetDeleter(s, i, pc);
    LocksKept(s, t);
    SameListKeepsInv(s, t, nodes);
  }

  lemma SearcherMoves(s: State, nodes: seq<nat>, i: nat, pc: Searcher)
    requires Inv(s, nodes) && i < |s.searchers| && SearchHolds(s.searchers[i])
    requires SearchHolds(pc) || s.head == 0
    requires SearcherOk(SetSearcher(s, i, pc), nodes, i)
    ensures Inv(SetSearcher(s, i, pc), nodes)
  {
    var t := SetSearcher(s, i, pc);
    LocksKept(s, t);
    SameListKeepsInv(s, t, nodes);
  }

  ghost predicate SameLocks(s: State, t: State) {
    && t.insertLock == s.insertLock && t.searchLock == s.searchLock
    && |t.inserters| == |s.inserters| && |t.deleters| == |s.deleters| && |t.searchers| == |s.searchers|
    && (forall j :: 0 <= j < |t.inserters| ==> InsertHolds(t.inserters[j]) == InsertHolds(s.inserters[j]))
    && (forall j :: 0 <= j < |t.deleters| ==>
          && DeleteHoldsInsert(t.deleters[j]) == DeleteHoldsInsert(s.deleters[j])
          && DeleteHoldsSearch(t.deleters[j]) == DeleteHoldsSearch(s.deleters[j]))
    && (forall j :: 0 <= j < |t.searchers| ==>
          SearchHolds(t.searchers[j]) == SearchHolds(s.searchers[j]) || (SearchHolds(s.searchers[j]) && t.head == 0))
  }

  lemma LocksKept(s: State, t: State)
    requires LocksOk(s) && SameLocks(s, t) && (s.head == 0 ==> t.head == 0)
    ensures LocksOk(t)
  {
    forall j | 0 <= j < |t.inserters| ensures InserterLocks(t, j) { assert InserterLocks(s, j); }
    forall j | 0 <= j < |t.deleters| ensures DeleterLocks(t, j) { assert DeleterLocks(s, j); }
    forall j | 0 <= j < |t.searchers| ensures SearcherLocks(t, j) { assert SearcherLocks(s, j); }
  }

  // ---------- taking and releasing locks ----------

  lemma InserterLocksUp(s: State, nodes: seq<nat>, i: nat)
    requires Inv(s, nodes) && i < |s.inserters| && s.inserters[i].InsTryLock? && s.insertLock.Nobody?
    ensures Inv(SetInserter(s, i, InsAlloc).(insertLock := AnInserter(i)), nodes)
  {
    var t := SetInserter(s, i, InsAlloc).(insertLock := AnInserter(i));
    forall j | 0 <= j < |t.inserters| ensures InserterLocks(t, j) { assert InserterLocks(s, j); }
    forall j | 0 <= j < |t.deleters| ensures DeleterLocks(t, j) { assert DeleterLocks(s, j); }
    forall j | 0 <= j < |t.searchers| ensures SearcherLocks(t, j) { assert SearcherLocks(s, j); }
    SameListKeepsInv(s, t, nodes);
  }

  lemma InserterUnlocks(s: State, nodes: seq<nat>, i: nat)
    requires Inv(s, nodes) && i < |s.inserters| && s.inserters[i].InsUnlock?
    ensures Inv(SetInserter(s, i, InsIdle).(insertLock := Nobody), nodes)
  {
    var t := SetInserter(s, i, InsIdle).(insertLock := Nobody);
    assert InserterLocks(s, i);
    forall j | 0 <= j < |t.inserters| ensures InserterLocks(t, j) { assert InserterLocks(s, j); }
    forall j | 0 <= j < |t.deleters| ensures DeleterLocks(t, j) { assert DeleterLocks(s, j); }
    forall j | 0 <= j < |t.searchers| ensures SearcherLocks(t, j) { assert SearcherLocks(s, j); }
    SameListKeepsInv(s, t, nodes);
  }

  /** A deleter takes or releases one lock, or both at once. */
  lemma DeleterRelocks(s: State, nodes: seq<nat>, i: nat, pc: Deleter, insertLock: Owner, searchLock: Owner)
    requires Inv(s, nodes) && i < |s.deleters| && !s.deleters[i].DelFree? && !pc.DelFree?
    requires s.insertLock.Nobody? || s.insertLock == ADeleter(i)
    requires insertLock == if DeleteHoldsInsert(pc) then ADeleter(i) else Nobody
    requires searchLock == s.searchLock || s.searchLock.Nobody? || s.searchLock == ADeleter(i)
    requires DeleteHoldsSearch(pc) <==> searchLock == ADeleter(i)
    requires searchLock == s.searchLock || searchLock.Nobody? || searchLock == ADeleter(i)
    requires DeleterOk(SetDeleter(s, i, pc), nodes, i) && !pc.DelCounting?
    ensures Inv(SetDeleter(s, i, pc).(insertLock := insertLock, searchLock := searchLock), nodes)
  {
    var t := SetDeleter(s, i, pc).(insertLock := insertLock, searchLock := searchLock);
    assert DeleterLocks(s, i);
    forall j | 0 <= j < |t.inserters| ensures InserterLocks(t, j) { assert InserterLocks(s, j); }
    forall j | 0 <= j < |t.deleters| ensures DeleterLocks(t, j) { assert DeleterLocks(s, j); }
    forall j | 0 <= j < |t.searchers| ensures SearcherLocks(t, j) { assert SearcherLocks(s, j); }
    SameListKeepsInv(s, t, nodes);
  }

  lemma SearcherLocksUp(s: State, nodes: seq<nat>, i: nat)
    requires Inv(s, nodes) && i < |s.searchers| && s.searchers[i].SeaIdle? && s.searchLock.Nobody?
    ensures Inv(SetSearcher(s, i, SeaStart).(searchLock := ASearcher(i)), nodes)
  {
    var t := SetSearcher(s, i, SeaStart).(searchLock := ASearcher(i));
    forall j | 0 <= j < |t.inserters| ensures InserterLocks(t, j) { assert InserterLocks(s, j); }
    forall j | 0 <= j < |t.deleters| ensures DeleterLocks(t, j) { assert DeleterLocks(s, j); }
    forall j | 0 <= j < |t.searchers| ensures SearcherLocks(t, j) { assert SearcherLocks(s, j); }
    SameListKeepsInv(s, t, nodes);
  }

  lemma SearcherUnlocks(s: State, nodes: seq<nat>, i: nat)
    requires Inv(s, nodes) && i < |s.searchers| && s.searchers[i].SeaUnlock?
    ensures Inv(SetSearcher(s, i, SeaIdle).(searchLock := Nobody), nodes)
  {
    var t := SetSearcher(s, i, SeaIdle).(searchLock := Nobody);
    assert SearcherLocks(s, i);
    forall j | 0 <= j < |t.inserters| ensures InserterLocks(t, j) { assert InserterLocks(s, j); }
    forall j | 0 <= j < |t.deleters| ensures DeleterLocks(t, j) { assert DeleterLocks(s, j); }
    forall j | 0 <= j < |t.searchers| ensures SearcherLocks(t, j) { assert SearcherLocks(s, j); }
    SameListKeepsInv(s, t, nodes);
  }

  // ---------- steps that change the list or the heap ----------

  function Allocated(s: State, i: nat, draw: int): State
    requires i < |s.inserters|
  {
    SetInserter(s, i, InsCheck(s.unused)).(heap := s.heap[s.unused := Node(0, draw)], unused := s.unused + 1)
  }

  lemma AllocKeepsInv(s: State, nodes: seq<nat>, i: nat, draw: int)
    requires Inv(s, nodes) && i < |s.inserters| && s.inserters[i].InsAlloc?
    ensures Inv(Allocated(s, i, draw), nodes)
  {
    var t := Allocated(s, i, draw);
    LocksKept(s, t);
    forall k | 0 <= k < |nodes| ensures Linked(t.heap, nodes, k) { assert Linked(s.heap, nodes, k); }
    forall j | 0 <= j < |t.inserters| ensures InserterOk(t, nodes, j) {
      assert InserterOk(s, nodes, j) && InserterLocks(s, j) && InserterLocks(s, i);
    }
    forall j | 0 <= j < |t.deleters| ensures DeleterOk(t, nodes, j) {
      assert DeleterOk(s, nodes, j) && DeleterLocks(s, j) && InserterLocks(s, i);
    }
    forall j | 0 <= j < |t.searchers| ensures SearcherOk(t, nodes, j) {
      assert SearcherOk(s, nodes, j);
    }
  }

  function LinkedIn(s: State, i: nat, n: nat, end: nat): State
    requires i < |s.inserters| && end in s.heap
  {
    SetInserter(s, i, InsUnlock).(heap := s.heap[end := s.heap[end].(next := n)])
  }

  lemma LinkKeepsChain(s: State, nodes: seq<nat>, n: nat)
    requires HeapOk(s) && Chain(s.heap, s.head, nodes) && NewNode(s.heap, nodes, n) && nodes != []
    requires nodes[|nodes| - 1] in s.heap
    ensures Chain(s.heap[nodes[|nodes| - 1] := s.heap[nodes[|nodes| - 1]].(next := n)], s.head, nodes + [n])
  {
    var end := nodes[|nodes| - 1];
    var heap := s.heap[end := s.heap[end].(next := n)];
    var list := nodes + [n];
    forall k | 0 <= k < |list| ensures Linked(heap, list, k) {
      if k < |nodes| { assert Linked(s.heap, nodes, k); }
    }
  }

  lemma LinkKeepsInv(s: State, nodes: seq<nat>, i: nat, n: nat, end: nat)
    requires Inv(s, nodes) && i < |s.inserters| && s.inserters[i] == InsLink(n, end)
    ensures end in s.heap && Inv(LinkedIn(s, i, n, end), nodes + [n])
  {
    assert InserterOk(s, nodes, i) && InserterLocks(s, i);
    var t, list := LinkedIn(s, i, n, end), nodes + [n];
    LinkKeepsChain(s, nodes, n);
    ChainInHeap(t.heap, t.head, list);
    LocksKept(s, t);
    forall j | 0 <= j < |t.inserters| ensures InserterOk(t, list, j) {
      assert InserterOk(s, nodes, j) && InserterLocks(s, j);
    }
    forall j | 0 <= j < |t.deleters| ensures DeleterOk(t, list, j) {
      assert DeleterOk(s, nodes, j) && DeleterLocks(s, j);
    }
    forall j | 0 <= j < |t.searchers| ensures SearcherOk(t, list, j) {
      assert SearcherOk(s, nodes, j);
    }
  }

  ghost function Without(nodes: seq<nat>, k: nat): seq<nat>
    requires k < |nodes|
  {
    nodes[..k] + nodes[k + 1..]
  }

  function Freed(s: State, i: nat, cur: nat): State
    requires i < |s.deleters|
  {
    SetDeleter(s, i, DelUnlockSearch).(heap := s.heap - {cur})
  }

  lemma FreeKeepsInv(s: State, nodes: seq<nat>, i: nat, cur: nat)
    requires Inv(s, nodes) && i < |s.deleters| && s.deleters[i] == DelFree(cur)
    ensures Inv(Freed(s, i, cur), nodes)
  {
    assert DeleterOk(s, nodes, i) && DeleterLocks(s, i);
    var t := Freed(s, i, cur);
    LocksKept(s, t);
    forall k | 0 <= k < |nodes| ensures Linked(t.heap, nodes, k) { assert Linked(s.heap, nodes, k); }
    forall j | 0 <= j < |t.inserters| ensures InserterOk(t, nodes, j) {
      assert InserterOk(s, nodes, j) && InserterLocks(s, j);
    }
    forall j | 0 <= j < |t.deleters| ensures DeleterOk(t, nodes, j) {
      assert DeleterOk(s, nodes, j) && DeleterLocks(s, j);
    }
    forall j | 0 <= j < |t.searchers| ensures SearcherOk(t, nodes, j) {
      assert SearcherOk(s, nodes, j) && SearcherLocks(s, j);
    }
  }

  ghost function HeapWithout(heap: map<nat, Node>, nodes: seq<nat>, k: nat): map<nat, Node>
    requires k < |nodes| && forall j :: 0 <= j < |nodes| ==> nodes[j] in heap
  {
    if k == 0 then heap else heap[nodes[k - 1] := heap[nodes[k - 1]].(next := heap[nodes[k]].next)]
  }

  lemma UnlinkKeepsChain(heap: map<nat, Node>, head: nat, nodes: seq<nat>, k: nat)
    requires k < |nodes| && Chain(heap, head, nodes) && forall j :: 0 <= j < |nodes| ==> nodes[j] in heap
    ensures Chain(HeapWithout(heap, nodes, k), if k == 0 then heap[nodes[k]].next else head, Without(nodes, k))
  {
    var list := Without(nodes, k);
    assert Linked(heap, nodes, k);
    forall j | 0 <= j < |list| ensures Linked(HeapWithout(heap, nodes, k), list, j) {
      assert Linked(heap, nodes, if j < k then j else j + 1);
    }
  }

  function Unlinked(s: State, i: nat, prev: nat, cur: nat): State
    requires i < |s.deleters| && cur in s.heap && (cur == s.head || prev in s.heap)
  {
    if cur == s.head then SetDeleter(s, i, DelFree(cur)).(head := s.heap[cur].next)
    else SetDeleter(s, i, DelFree(cur)).(heap := s.heap[prev := s.heap[prev].(next := s.heap[cur].next)])
  }

  /** The node unlinked is in the heap, and so is the node before it. */
  lemma UnlinkFinds(s: State, nodes: seq<nat>, i: nat, prev: nat, cur: nat) returns (k: nat)
    requires Inv(s, nodes) && i < |s.deleters| && s.deleters[i] == DelUnlink(prev, cur)
    ensures k < |nodes| && nodes[k] == cur && cur in s.heap && (cur == s.head <==> k == 0)
    ensures k > 0 ==> prev == nodes[k - 1] && prev in s.heap
    ensures Unlinked(s, i, prev, cur).heap == HeapWithout(s.heap, nodes, k)
  {
    assert DeleterOk(s, nodes, i);
    k :| 0 <= k < |nodes| && nodes[k] == cur;
  }

  lemma CountAfterUnlink(s: State, t: State, nodes: seq<nat>, k: nat, cur: nat, count: nat)
    requires k < |nodes| && Leaving(s) == 0 && CountOk(s, nodes, cur, count) && Distinct(nodes)
    requires t.unused == s.unused && t.heap.Keys == s.heap.Keys && Leaving(t) == nodes[k]
    requires nodes[k] in s.heap && t.heap[nodes[k]].next == At(nodes, k + 1) && 0 !in nodes
    ensures CountOk(t, Without(nodes, k), cur, count)
  {
    var list := Without(nodes, k);
    forall j | cur in s.heap && 0 <= j < |list| && list[j] == cur ensures j <= count {
      assert nodes[if j < k then j else j + 1] == cur;
    }
    if cur == nodes[k] {
      forall j | 0 <= j <= |list| && At(list, j) == At(nodes, k + 1) ensures j <= count {
        assert j == k;
      }
    }
  }

  lemma UnlinkKeepsInv(s: State, nodes: seq<nat>, i: nat, prev: nat, cur: nat) returns (k: nat)
    requires Inv(s, nodes) && i < |s.deleters| && s.deleters[i] == DelUnlink(prev, cur)
    ensures k < |nodes| && cur in s.heap && (cur == s.head || prev in s.heap)
    ensures Inv(Unlinked(s, i, prev, cur), Without(nodes, k))
  {
    k := UnlinkFinds(s, nodes, i, prev, cur);
    assert DeleterLocks(s, i) && Linked(s.heap, nodes, k);
    var t, list := Unlinked(s, i, prev, cur), Without(nodes, k);
    UnlinkKeepsChain(s.heap, s.head, nodes, k);
    ChainInHeap(s.heap, s.head, nodes);
    ChainInHeap(t.heap, t.head, list);
    LocksAfterUnlink(s, nodes, i, prev, cur);
    forall j | 0 <= j < |t.inserters| ensures InserterOk(t, list, j) {
      assert InserterOk(s, nodes, j) && InserterLocks(s, j);
      if t.inserters[j].InsCounting? {
        CountAfterUnlink(s, t, nodes, k, t.inserters[j].cur, t.inserters[j].count);
      }
    }
    forall j | 0 <= j < |t.deleters| ensures DeleterOk(t, list, j) {
      assert DeleterOk(s, nodes, j) && DeleterLocks(s, j);
      if t.deleters[j].DelCounting? {
        CountAfterUnlink(s, t, nodes, k, t.deleters[j].cur, t.deleters[j].count);
      }
    }
    forall j | 0 <= j < |t.searchers| ensures SearcherOk(t, list, j) {
      assert SearcherLocks(s, j);
    }
  }

  lemma LocksAfterUnlink(s: State, nodes: seq<nat>, i: nat, prev: nat, cur: nat)
    requires LocksOk(s) && i < |s.deleters| && s.deleters[i] == DelUnlink(prev, cur)
    requires cur in s.heap && (cur == s.head || prev in s.heap)
    ensures LocksOk(Unlinked(s, i, prev, cur))
  {
    var t := Unlinked(s, i, prev, cur);
    assert DeleterLocks(s, i);
    forall j | 0 <= j < |t.inserters| ensures InserterLocks(t, j) { assert InserterLocks(s, j); }
    forall j | 0 <= j < |t.deleters| ensures DeleterLocks(t, j) { assert DeleterLocks(s, j); }
    forall j | 0 <= j < |t.searchers| ensures SearcherLocks(t, j) { assert SearcherLocks(s, j); }
  }

  // ---------- one step ----------

  /** How a step may change the list: not at all, by a node at the end, or by one node less. */
  ghost predicate Changes(nodes: seq<nat>, list: seq<nat>) {
    || list == nodes
    || (nodes != [] && |list| == |nodes| + 1 && list[..|nodes|] == nodes)
    || exists k :: 0 <= k < |nodes| && list == Without(nodes, k)
  }

  lemma LeavingIs(s: State, nodes: seq<nat>)
    requires Inv(s, nodes) && Leaving(s) in s.heap
    ensures Leaving(s) !in nodes && (s.heap[Leaving(s)].next == 0 || s.heap[Leaving(s)].next in nodes)
  {
    assert DeleterOk(s, nodes, s.insertLock.i);
  }

  lemma CountStarts(s: State, nodes: seq<nat>)
    requires Inv(s, nodes) && s.head != 0
    ensures CountOk(s, nodes, s.head, 0)
  {
    assert Linked(s.heap, nodes, 0);
    if s.head == Leaving(s) { LeavingIs(s, nodes); }
  }

  /** A count that goes on stays in step with the list; one that ends has counted every node there is. */
  lemma CountGoesOn(s: State, nodes: seq<nat>, cur: nat, count: nat)
    requires Inv(s, nodes) && CountOk(s, nodes, cur, count) && cur in s.heap
    ensures s.heap[cur].next != 0 ==> CountOk(s, nodes, s.heap[cur].next, count + 1)
    ensures s.heap[cur].next == 0 ==> |nodes| <= count + 1
  {
    var p := s.heap[cur].next;
    ChainInHeap(s.heap, s.head, nodes);
    if Leaving(s) in s.heap { LeavingIs(s, nodes); }
    if cur in nodes {
      var k :| 0 <= k < |nodes| && nodes[k] == cur;
      assert Linked(s.heap, nodes, k);
      if p != 0 {
        assert nodes[k + 1] == p;
      }
    } else {
      assert p == 0 ==> At(nodes, |nodes|) == p;
      forall k | 0 <= k < |nodes| && nodes[k] == p ensures k <= count {
        assert At(nodes, k) == p;
      }
    }
  }

  lemma InsertCountKeepsInv(s: State, nodes: seq<nat>, i: nat)
    requires Inv(s, nodes) && i < |s.inserters| && (s.inserters[i].InsIdle? || s.inserters[i].InsCounting?)
    ensures forall draw :: Inv(InsertStep(s, i, draw), nodes)
  {
    assert InserterOk(s, nodes, i);
    if s.inserters[i].InsIdle? {
      if s.head != 0 { CountStarts(s, nodes); }
      InserterMoves(s, nodes, i, InsertAfter(CountFrom(s.head, 0)));
    } else {
      var cur, count := s.inserters[i].cur, s.inserters[i].count;
      if cur in s.heap { CountGoesOn(s, nodes, cur, count); }
      InserterMoves(s, nodes, i, InsertAfter(CountOn(s.heap, cur, count)));
    }
  }

  lemma WalkKeepsInv(s: State, nodes: seq<nat>, i: nat)
    requires Inv(s, nodes) && i < |s.inserters| && s.inserters[i].InsWalk?
    ensures forall draw :: Inv(InsertStep(s, i, draw), nodes) && !InsertStep(s, i, draw).inserters[i].InsLost?
  {
    assert InserterOk(s, nodes, i);
    var n, end := s.inserters[i].node, s.inserters[i].end;
    ChainInHeap(s.heap, s.head, nodes);
    if end == 0 {
      InserterMoves(s, nodes, i, InsWalk(n, s.head));
    } else {
      var k :| 0 <= k < |nodes| && nodes[k] == end;
      assert Linked(s.heap, nodes, k);
      InserterMoves(s, nodes, i, if s.heap[end].next != 0 then InsWalk(n, s.heap[end].next) else InsLink(n, end));
    }
  }

  lemma InsertStepKeepsInv(s: State, nodes: seq<nat>, i: nat, draw: int) returns (list: seq<nat>)
    requires Inv(s, nodes) && i < |s.inserters|
    ensures Inv(InsertStep(s, i, draw), list) && Changes(nodes, list)
    ensures s.inserters[i].InsLink? ==> |list| == |nodes| + 1
    ensures !s.inserters[i].InsLink? ==> list == nodes
  {
    list := nodes;
    assert InserterOk(s, nodes, i);
    match s.inserters[i]
    case InsIdle => InsertCountKeepsInv(s, nodes, i);
    case InsCounting(_, _) => InsertCountKeepsInv(s, nodes, i);
    case InsTryLock =>
      if s.insertLock.Nobody? { InserterLocksUp(s, nodes, i); } else { InserterMoves(s, nodes, i, InsIdle); }
    case InsAlloc => AllocKeepsInv(s, nodes, i, draw);
    case InsCheck(n) => InserterMoves(s, nodes, i, if s.head == 0 then InsUnlock else InsWalk(n, 0));
    case InsWalk(_, _) => WalkKeepsInv(s, nodes, i);
    case InsLink(n, end) =>
      LinkKeepsInv(s, nodes, i, n, end);
      list := nodes + [n];
    case InsUnlock => InserterUnlocks(s, nodes, i);
    case InsLost =>
  }

  lemma DeleteCountKeepsInv(s: State, nodes: seq<nat>, i: nat)
    requires Inv(s, nodes) && i < |s.deleters| && (s.deleters[i].DelIdle? || s.deleters[i].DelCounting?)
    ensures forall draw :: Inv(DeleteStep(s, i, draw), nodes)
  {
    assert DeleterOk(s, nodes, i);
    if s.deleters[i].DelIdle? {
      if s.head != 0 { CountStarts(s, nodes); }
      DeleterMoves(s, nodes, i, DeleteAfter(CountFrom(s.head, 0)));
    } else {
      var cur, count := s.deleters[i].cur, s.deleters[i].count;
      if cur in s.heap { CountGoesOn(s, nodes, cur, count); }
      DeleterMoves(s, nodes, i, DeleteAfter(CountOn(s.heap, cur, count)));
    }
  }

  lemma ScanKeepsInv(s: State, nodes: seq<nat>, i: nat)
    requires Inv(s, nodes) && i < |s.deleters| && s.deleters[i].DelScan?
    ensures forall draw :: Inv(DeleteStep(s, i, draw), nodes) && !DeleteStep(s, i, draw).deleters[i].DelLost?
  {
    assert DeleterOk(s, nodes, i);
    var target, prev, cur := s.deleters[i].target, s.deleters[i].prev, s.deleters[i].cur;
    ChainInHeap(s.heap, s.head, nodes);
    if cur == 0 {
      DeleterMoves(s, nodes, i, DelUnlockSearch);
    } else if s.heap[cur].val == target {
      DeleterMoves(s, nodes, i, DelUnlink(prev, cur));
    } else {
      ScanGoesOn(s.heap, s.head, nodes, cur);
      DeleterMoves(s, nodes, i, DelScan(target, cur, s.heap[cur].next));
    }
  }

  lemma ScanGoesOn(heap: map<nat, Node>, head: nat, nodes: seq<nat>, cur: nat)
    requires Chain(heap, head, nodes) && cur in nodes && cur in heap
    ensures heap[cur].next == 0 || (heap[cur].next in nodes && Before(nodes, cur, heap[cur].next))
  {
    var k :| 0 <= k < |nodes| && nodes[k] == cur;
    assert Linked(heap, nodes, k);
  }

  lemma DeleteStepKeepsInv(s: State, nodes: seq<nat>, i: nat, draw: int) returns (list: seq<nat>)
    requires Inv(s, nodes) && i < |s.deleters|
    ensures Inv(DeleteStep(s, i, draw), list) && Changes(nodes, list)
    ensures s.deleters[i].DelUnlink? ==> |list| + 1 == |nodes|
    ensures !s.deleters[i].DelUnlink? ==> list == nodes
  {
    list := nodes;
    assert DeleterOk(s, nodes, i) && DeleterLocks(s, i);
    match s.deleters[i]
    case DelIdle => DeleteCountKeepsInv(s, nodes, i);
    case DelCounting(_, _) => DeleteCountKeepsInv(s, nodes, i);
    case DelTryInsert =>
      if s.insertLock.Nobody? {
        DeleterRelocks(s, nodes, i, DelTrySearch, ADeleter(i), s.searchLock);
      } else {
        DeleterMoves(s, nodes, i, DelIdle);
      }
    case DelTrySearch =>
      if s.searchLock.Nobody? {
        DeleterRelocks(s, nodes, i, DelStart, ADeleter(i), ADeleter(i));
      } else {
        DeleterMoves(s, nodes, i, DelUnlockInsert);
      }
    case DelStart =>
      if s.head != 0 { assert Linked(s.heap, nodes, 0); }
      DeleterMoves(s, nodes, i, DelScan(draw, 0, s.head));
    case DelScan(_, _, _) => ScanKeepsInv(s, nodes, i);
    case DelUnlink(prev, cur) =>
      var k := UnlinkKeepsInv(s, nodes, i, prev, cur);
      list := Without(nodes, k);
    case DelFree(cur) => FreeKeepsInv(s, nodes, i, cur);
    case DelUnlockSearch => DeleterRelocks(s, nodes, i, DelUnlockInsert, ADeleter(i), Nobody);
    case DelUnlockInsert => DeleterRelocks(s, nodes, i, DelIdle, Nobody, s.searchLock);
    case DelLost =>
  }

  /** The searcher has seen the values of the nodes before it; the step that meets the end has seen all. */
  lemma VisitKeepsInv(s: State, nodes: seq<nat>, i: nat)
    requires Inv(s, nodes) && i < |s.searchers| && s.searchers[i].SeaVisit?
    ensures Inv(SearchStep(s, i), nodes) && !SearchStep(s, i).searchers[i].SeaLost?
    ensures SearchStep(s, i).searchers[i].SeaUnlock? ==> SearchStep(s, i).searchers[i].seen == Values(s.heap, nodes)
  {
    assert SearcherOk(s, nodes, i);
    var cur, seen := s.searchers[i].cur, s.searchers[i].seen;
    assert Linked(s.heap, nodes, |seen|);
    var more := seen + [s.heap[cur].val];
    assert more == Values(s.heap, nodes)[..|more|];
    SearcherMoves(s, nodes, i, if s.heap[cur].next == 0 then SeaUnlock(more) else SeaVisit(s.heap[cur].next, more));
  }

  lemma SearchStepKeepsInv(s: State, nodes: seq<nat>, i: nat)
    requires Inv(s, nodes) && i < |s.searchers|
    ensures Inv(SearchStep(s, i), nodes)
  {
    match s.searchers[i]
    case SeaIdle => if s.searchLock.Nobody? { SearcherLocksUp(s, nodes, i); }
    case SeaStart =>
      if s.head != 0 { assert Linked(s.heap, nodes, 0); }
      SearcherMoves(s, nodes, i, if s.head == 0 then SeaIdle else SeaVisit(s.head, []));
    case SeaVisit(_, _) => VisitKeepsInv(s, nodes, i);
    case SeaUnlock(_) => SearcherUnlocks(s, nodes, i);
    case SeaLost =>
  }
}
