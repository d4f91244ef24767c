/** What a whole deletion and a whole insertion do to the list, from the moment a thread has its locks
    until it is about to give them up, with steps of all other threads in between. */
module SharedListEffects {
  import opened SharedList
  import opened SharedListInvariant
  import opened SharedListRuns
  import opened SharedListSteps

  /** Memory and the list head are the same. */
  predicate SameMemory(s: State, t: State) { t.heap == s.heap && t.head == s.head }

  // ---------- deletion ----------

  /** A step of another thread. */
  predicate NotOfDeleter(a: Action, i: nat) { !(a.Delete? && a.i == i) }

  lemma InserterWaits(s: State, j: nat, draw: int)
    requires j < |s.inserters| && !InsertHolds(s.inserters[j]) && !s.insertLock.Nobody?
    ensures SameMemory(s, InsertStep(s, j, draw)) && InsertStep(s, j, draw).deleters == s.deleters
  {
  }

  lemma DeleterWaits(s: State, j: nat, draw: int)
    requires j < |s.deleters| && !DeleteHoldsInsert(s.deleters[j]) && !s.insertLock.Nobody?
    ensures SameMemory(s, DeleteStep(s, j, draw)) && DeleteStep(s, j, draw).inserters == s.inserters
    ensures forall k :: 0 <= k < |s.deleters| && k != j ==> DeleteStep(s, j, draw).deleters[k] == s.deleters[k]
  {
  }

  /** While a deleter has both locks, the steps of all others leave memory and the deleter alone. */
  lemma OthersStandStill(s: State, nodes: seq<nat>, i: nat, a: Action)
    requires Inv(s, nodes) && i < |s.deleters| && DeleteHoldsSearch(s.deleters[i]) && NotOfDeleter(a, i)
    ensures SameMemory(s, Step(s, a)) && i < |Step(s, a).deleters| && Step(s, a).deleters[i] == s.deleters[i]
  {
    DeleterIsAlone(s, nodes, i);
    assert DeleterLocks(s, i);
    match a
    case Insert(j, draw) =>
      if j < |s.inserters| && 0 <= draw < 10 { InserterWaits(s, j, draw); }
    case Delete(j, draw) =>
      if j < |s.deleters| && 0 <= draw < 10 { DeleterWaits(s, j, draw); }
    case Search(j) =>
  }

  /** The value d is in none of the first k nodes. */
  ghost predicate NotBefore(heap: map<nat, Node>, nodes: seq<nat>, k: nat, d: int) {
    k <= |nodes| && forall j :: 0 <= j < k ==> nodes[j] in heap && heap[nodes[j]].val != d
  }

  /** Node k is the first one with the value d. */
  ghost predicate FirstAt(heap: map<nat, Node>, nodes: seq<nat>, k: nat, d: int) {
    k < |nodes| && NotBefore(heap, nodes, k, d) && nodes[k] in heap && heap[nodes[k]].val == d
  }

  /** These nodes have the values they had. */
  ghost predicate SameValues(heap: map<nat, Node>, heap': map<nat, Node>, nodes: seq<nat>) {
    forall j :: 0 <= j < |nodes| ==> nodes[j] in heap && nodes[j] in heap' && heap'[nodes[j]].val == heap[nodes[j]].val
  }

  /** Node k is out of the list, and no other node nor any value has changed. */
  ghost predicate Removed(s: State, t: State, nodes: seq<nat>, k: nat) {
    k < |nodes| && Chain(t.heap, t.head, Without(nodes, k)) && SameValues(s.heap, t.heap, Without(nodes, k))
  }

  /** How far deleter i has come in state t with a deletion of d that began in state s; it has passed k
      nodes, or found the value in node k. */
  ghost predicate Deleting(s: State, t: State, nodes: seq<nat>, i: nat, d: int, k: nat)
    requires i < |t.deleters|
  {
    match t.deleters[i]
    case DelScan(target, _, cur) => target == d && SameMemory(s, t) && NotBefore(s.heap, nodes, k, d) && cur == At(nodes, k)
    case DelUnlink(_, cur) => SameMemory(s, t) && FirstAt(s.heap, nodes, k, d) && cur == nodes[k]
    case DelFree(cur) => FirstAt(s.heap, nodes, k, d) && cur == nodes[k] && Removed(s, t, nodes, k)
    case DelUnlockSearch =>
      || (NotBefore(s.heap, nodes, k, d) && k == |nodes| && SameMemory(s, t))
      || (FirstAt(s.heap, nodes, k, d) && Removed(s, t, nodes, k) && nodes[k] !in t.heap)
    case _ => false
  }

  lemma ScanStep(s: State, t: State, nodes: seq<nat>, i: nat, d: int, k: nat, draw: int) returns (k': nat)
    requires Inv(s, nodes) && i < |t.deleters| && Deleting(s, t, nodes, i, d, k) && t.deleters[i].DelScan?
    ensures Deleting(s, DeleteStep(t, i, draw), nodes, i, d, k')
  {
    k' := k;
    if k < |nodes| {
      assert Linked(s.heap, nodes, k);
      if s.heap[nodes[k]].val != d { k' := k + 1; }
    }
  }

  lemma UnlinkStep(s: State, t: State, nodes: seq<nat>, i: nat, d: int, k: nat, draw: int)
    requires Inv(t, nodes) && i < |t.deleters| && Deleting(s, t, nodes, i, d, k) && t.deleters[i].DelUnlink?
    ensures Deleting(s, DeleteStep(t, i, draw), nodes, i, d, k)
  {
    var prev, cur := t.deleters[i].prev, t.deleters[i].cur;
    var l := UnlinkFinds(t, nodes, i, prev, cur);
    assert l == k;
    UnlinkKeepsChain(t.heap, t.head, nodes, k);
    assert DeleteStep(t, i, draw) == Unlinked(t, i, prev, cur);
  }

  lemma FreeStep(s: State, t: State, nodes: seq<nat>, i: nat, d: int, k: nat, draw: int)
    requires Chain(s.heap, s.head, nodes)
    requires i < |t.deleters| && Deleting(s, t, nodes, i, d, k) && t.deleters[i].DelFree?
    ensures Deleting(s, DeleteStep(t, i, draw), nodes, i, d, k)
  {
    var list := Without(nodes, k);
    var u := DeleteStep(t, i, draw);
    forall j | 0 <= j < |list| ensures list[j] != nodes[k] && Linked(u.heap, list, j) {
      assert Linked(t.heap, list, j);
      assert list[j] == nodes[if j < k then j else j + 1];
    }
  }

  /** In all states of the run the deleter has both locks. */
  predicate StaysDeleting(t: State, i: nat, actions: seq<Action>)
    decreases |actions|
  {
    && i < |t.deleters| && DeleteHoldsSearch(t.deleters[i])
    && (actions == [] || StaysDeleting(Step(t, actions[0]), i, actions[1..]))
  }

  lemma OwnDeleteStep(s: State, t: State, nodes: seq<nat>, list: seq<nat>, i: nat, d: int, k: nat, draw: int)
    returns (k': nat)
    requires Inv(s, nodes) && Inv(t, list) && i < |t.deleters| && Deleting(s, t, nodes, i, d, k)
    requires !t.deleters[i].DelUnlockSearch?
    ensures Deleting(s, DeleteStep(t, i, draw), nodes, i, d, k')
  {
    k' := k;
    match t.deleters[i]
    case DelScan(_, _, _) => k' := ScanStep(s, t, nodes, i, d, k, draw);
    case DelUnlink(_, _) =>
      ChainIsUnique(s.heap, s.head, nodes, list);
      UnlinkStep(s, t, nodes, i, d, k, draw);
    case DelFree(_) => FreeStep(s, t, nodes, i, d, k, draw);
  }

  lemma DeletingGoesOn(s: State, t: State, nodes: seq<nat>, list: seq<nat>, i: nat, d: int, k: nat, a: Action)
    returns (k': nat)
    requires Inv(s, nodes) && Inv(t, list) && i < |t.deleters| && Deleting(s, t, nodes, i, d, k)
    requires i < |Step(t, a).deleters| && DeleteHoldsSearch(Step(t, a).deleters[i])
    ensures Deleting(s, Step(t, a), nodes, i, d, k')
  {
    k' := k;
    if NotOfDeleter(a, i) {
      OthersStandStill(t, list, i, a);
    } else if 0 <= a.draw < 10 {
      k' := OwnDeleteStep(s, t, nodes, list, i, d, k, a.draw);
    }
  }

  lemma {:induction false} DeletionRuns(s: State, t: State, nodes: seq<nat>, list: seq<nat>, i: nat, d: int, k: nat,
                                        actions: seq<Action>) returns (k': nat)
    requires Inv(s, nodes) && Inv(t, list) && StaysDeleting(t, i, actions) && Deleting(s, t, nodes, i, d, k)
    ensures i < |Run(t, actions).deleters| && Deleting(s, Run(t, actions), nodes, i, d, k')
    decreases |actions|
  {
    k' := k;
    if actions != [] {
      k' := DeletingGoesOn(s, t, nodes, list, i, d, k, actions[0]);
      var list' := StepKeepsInv(t, list, actions[0]);
      k' := DeletionRuns(s, Step(t, actions[0]), nodes, list', i, d, k', actions[1..]);
    }
  }

  /** A deletion removes and frees the first node that holds the number drawn, and nothing else; if no node
      holds it, memory stays as it is. State s is reached in any run, deleter i has both locks in it and
      draws d in its next step; `after` are the steps of all threads up to a state where it has finished. */
  lemma DeleteRemovesFirst(inserters: nat, deleters: nat, searchers: nat, draw: int, before: seq<Action>,
                           s: State, nodes: seq<nat>, i: nat, d: int, after: seq<Action>, t: State)
    returns (k: nat)
    requires s == Run(Init(inserters, deleters, searchers, draw), before) && Chain(s.heap, s.head, nodes)
    requires i < |s.deleters| && s.deleters[i].DelStart? && 0 <= d < 10
    requires StaysDeleting(Step(s, Delete(i, d)), i, after) && t == Run(Step(s, Delete(i, d)), after)
    requires i < |t.deleters| && t.deleters[i].DelUnlockSearch?
    ensures k <= |nodes| && forall j :: 0 <= j < k ==> nodes[j] in s.heap && s.heap[nodes[j]].val != d
    ensures k == |nodes| ==> t.heap == s.heap && t.head == s.head
    ensures k < |nodes| ==>
      && nodes[k] in s.heap && s.heap[nodes[k]].val == d && nodes[k] !in t.heap
      && Chain(t.heap, t.head, nodes[..k] + nodes[k + 1..])
      && SameValues(s.heap, t.heap, nodes[..k] + nodes[k + 1..])
  {
    InitOk(inserters, deleters, searchers, draw);
    var list := RunKeepsInv(Init(inserters, deleters, searchers, draw), [1], before);
    ChainIsUnique(s.heap, s.head, nodes, list);
    var list' := StepKeepsInv(s, nodes, Delete(i, d));
    k := DeletionRuns(s, Step(s, Delete(i, d)), nodes, list', i, d, 0, after);
  }

  // ---------- insertion ----------

  predicate NotOfInserter(a: Action, i: nat) { !(a.Insert? && a.i == i) }

  /** While an inserter has its lock, the steps of all others leave memory and the inserter alone. */
  lemma OthersOnlyRead(s: State, nodes: seq<nat>, i: nat, a: Action)
    requires Inv(s, nodes) && i < |s.inserters| && InsertHolds(s.inserters[i]) && NotOfInserter(a, i)
    ensures SameMemory(s, Step(s, a)) && i < |Step(s, a).inserters| && Step(s, a).inserters[i] == s.inserters[i]
  {
    assert InserterLocks(s, i);
    match a
    case Insert(j, draw) =>
      if j < |s.inserters| && 0 <= draw < 10 {
        assert InserterLocks(s, j);
        InserterWaits(s, j, draw);
      }
    case Delete(j, draw) =>
      if j < |s.deleters| && 0 <= draw < 10 {
        assert DeleterLocks(s, j);
        DeleterWaits(s, j, draw);
      }
    case Search(j) =>
  }

  /** A new node n with the value v, and nothing else. */
  predicate NodeMade(s: State, t: State, n: nat, v: int) {
    n == s.unused && t.heap == s.heap[n := Node(0, v)] && t.head == s.head
  }

  /** Node n with the value v is the last of the list, and no other node nor any value has changed. */
  ghost predicate Appended(s: State, t: State, nodes: seq<nat>, n: nat, v: int) {
    && Chain(t.heap, t.head, nodes + [n]) && SameValues(s.heap, t.heap, nodes)
    && n in t.heap && t.heap[n].val == v
  }

  /** How far inserter i has come in state t with an insertion of v that began in state s. */
  ghost predicate Inserting(s: State, t: State, nodes: seq<nat>, i: nat, v: int)
    requires i < |t.inserters|
  {
    var n := s.unused;
    match t.inserters[i]
    case InsCheck(m) => m == n && NodeMade(s, t, n, v)
    case InsWalk(m, _) => m == n && NodeMade(s, t, n, v) && nodes != []
    case InsLink(m, _) => m == n && NodeMade(s, t, n, v) && nodes != []
    case InsUnlock => if nodes == [] then NodeMade(s, t, n, v) else Appended(s, t, nodes, n, v)
    case _ => false
  }

  /** The new node is not on the list. */
  lemma NewNodeApart(s: State, nodes: seq<nat>, v: int)
    requires Inv(s, nodes)
    ensures Chain(s.heap[s.unused := Node(0, v)], s.head, nodes) && SameValues(s.heap, s.heap[s.unused := Node(0, v)], nodes)
  {
    var heap := s.heap[s.unused := Node(0, v)];
    forall k | 0 <= k < |nodes| ensures Linked(heap, nodes, k) {
      assert Linked(s.heap, nodes, k);
    }
  }

  lemma LinkStep(s: State, t: State, nodes: seq<nat>, i: nat, v: int, draw: int)
    requires Inv(s, nodes) && Inv(t, nodes) && i < |t.inserters| && Inserting(s, t, nodes, i, v) && t.inserters[i].InsLink?
    ensures Inserting(s, InsertStep(t, i, draw), nodes, i, v)
  {
    assert InserterOk(t, nodes, i);
    ChainInHeap(t.heap, t.head, nodes);
    LinkKeepsChain(t, nodes, s.unused);
    NewNodeApart(s, nodes, v);
  }

  lemma WalkStep(s: State, t: State, nodes: seq<nat>, i: nat, v: int, draw: int)
    requires Inv(t, nodes) && i < |t.inserters| && Inserting(s, t, nodes, i, v) && t.inserters[i].InsWalk?
    ensures Inserting(s, InsertStep(t, i, draw), nodes, i, v)
  {
    assert InserterOk(t, nodes, i);
  }

  lemma OwnInsertStep(s: State, t: State, nodes: seq<nat>, list: seq<nat>, i: nat, v: int, draw: int)
    requires Inv(s, nodes) && Inv(t, list) && i < |t.inserters| && Inserting(s, t, nodes, i, v)
    requires !t.inserters[i].InsUnlock?
    ensures Inserting(s, InsertStep(t, i, draw), nodes, i, v)
  {
    NewNodeApart(s, nodes, v);
    ChainIsUnique(t.heap, t.head, nodes, list);
    match t.inserters[i]
    case InsCheck(_) => ChainInHeap(s.heap, s.head, nodes);
    case InsWalk(_, _) => WalkStep(s, t, nodes, i, v, draw);
    case InsLink(_, _) => LinkStep(s, t, nodes, i, v, draw);
  }

  /** In all states of the run the inserter has its lock. */
  predicate StaysInserting(t: State, i: nat, actions: seq<Action>)
    decreases |actions|
  {
    && i < |t.inserters| && InsertHolds(t.inserters[i])
    && (actions == [] || StaysInserting(Step(t, actions[0]), i, actions[1..]))
  }

  lemma InsertingGoesOn(s: State, t: State, nodes: seq<nat>, list: seq<nat>, i: nat, v: int, a: Action)
    requires Inv(s, nodes) && Inv(t, list) && i < |t.inserters| && Inserting(s, t, nodes, i, v)
    requires i < |Step(t, a).inserters| && InsertHolds(Step(t, a).inserters[i])
    ensures Inserting(s, Step(t, a), nodes, i, v)
  {
    if NotOfInserter(a, i) {
      OthersOnlyRead(t, list, i, a);
    } else if 0 <= a.draw < 10 {
      OwnInsertStep(s, t, nodes, list, i, v, a.draw);
    }
  }

  lemma {:induction false} InsertionRuns(s: State, t: State, nodes: seq<nat>, list: seq<nat>, i: nat, v: int,
                                         actions: seq<Action>)
    requires Inv(s, nodes) && Inv(t, list) && StaysInserting(t, i, actions) && Inserting(s, t, nodes, i, v)
    ensures i < |Run(t, actions).inserters| && Inserting(s, Run(t, actions), nodes, i, v)
    decreases |actions|
  {
    if actions != [] {
      InsertingGoesOn(s, t, nodes, list, i, v, actions[0]);
      var list' := StepKeepsInv(t, list, actions[0]);
      InsertionRuns(s, Step(t, actions[0]), nodes, list', i, v, actions[1..]);
    }
  }

  /** An insertion puts a new node with the number drawn at the end of the list, and changes nothing else;
      if the list is empty, it stays empty. State s is reached in any run, inserter i has its lock in it and
      draws v in its next step; `after` are the steps of all threads up to a state where it has finished. */
  lemma InsertAppends(inserters: nat, deleters: nat, searchers: nat, draw: int, before: seq<Action>,
                      s: State, nodes: seq<nat>, i: nat, v: int, after: seq<Action>, t: State)
    returns (n: nat)
    requires s == Run(Init(inserters, deleters, searchers, draw), before) && Chain(s.heap, s.head, nodes)
    requires i < |s.inserters| && s.inserters[i].InsAlloc? && 0 <= v < 10
    requires StaysInserting(Step(s, Insert(i, v)), i, after) && t == Run(Step(s, Insert(i, v)), after)
    requires i < |t.inserters| && t.inserters[i].InsUnlock?
    ensures n !in s.heap && SameValues(s.heap, t.heap, nodes) && n in t.heap && t.heap[n].val == v
    ensures Chain(t.heap, t.head, if nodes == [] then [] else nodes + [n])
  {
    InitOk(inserters, deleters, searchers, draw);
    var list := RunKeepsInv(Init(inserters, deleters, searchers, draw), [1], before);
    ChainIsUnique(s.heap, s.head, nodes, list);
    var list' := StepKeepsInv(s, nodes, Insert(i, v));
    InsertionRuns(s, Step(s, Insert(i, v)), nodes, list', i, v, after);
    n := s.unused;
    NewNodeApart(s, nodes, v);
  }

  // ---------- search ----------

  /** So many steps of searcher i in a row. */
  function Searches(i: nat, steps: nat): (r: seq<Action>)
    ensures |r| == steps
  {
    if steps == 0 then [] else [Search(i)] + Searches(i, steps - 1)
  }

  lemma SearchesOn(s: State, i: nat, steps: nat)
    requires steps > 0
    ensures Run(s, Searches(i, steps)) == Run(Step(s, Search(i)), Searches(i, steps - 1))
  {
    assert Searches(i, steps)[1..] == Searches(i, steps - 1);
  }

  /** State s with searcher i on node k of the list, with the values before it seen. */
  ghost predicate Visiting(s: State, t: State, nodes: seq<nat>, i: nat, k: nat) {
    && i < |s.searchers| && k < |nodes| && (forall j :: 0 <= j < |nodes| ==> nodes[j] in s.heap)
    && t == s.(searchLock := ASearcher(i), searchers := s.searchers[i := SeaVisit(nodes[k], Values(s.heap, nodes)[..k])])
  }

  lemma {:induction false} VisitsEnd(s: State, t: State, nodes: seq<nat>, i: nat, k: nat)
    requires Visiting(s, t, nodes, i, k) && Chain(s.heap, s.head, nodes)
    ensures Run(t, Searches(i, |nodes| - k)) ==
            s.(searchLock := ASearcher(i), searchers := s.searchers[i := SeaUnlock(Values(s.heap, nodes))])
    decreases |nodes| - k
  {
    SearchesOn(t, i, |nodes| - k);
    assert Linked(s.heap, nodes, k);
    var values := Values(s.heap, nodes);
    assert values[..k] + [values[k]] == values[..k + 1];
    var u := Step(t, Search(i));
    if k + 1 < |nodes| {
      assert Linked(s.heap, nodes, k + 1);
      assert u == s.(searchLock := ASearcher(i), searchers := s.searchers[i := SeaVisit(nodes[k + 1], values[..k + 1])]);
      VisitsEnd(s, u, nodes, i, k + 1);
    } else {
      assert values[..k + 1] == values;
    }
  }

  lemma {:induction false} SearchesLast(s: State, i: nat, steps: nat)
    ensures Run(s, Searches(i, steps + 1)) == Step(Run(s, Searches(i, steps)), Search(i))
    decreases steps
  {
    SearchesOn(s, i, steps + 1);
    if steps > 0 {
      SearchesOn(s, i, steps);
      SearchesLast(Step(s, Search(i)), i, steps - 1);
    }
  }

  /** A search that nobody interrupts reports the list, from its first value to its last, and then leaves
      everything as it was, with the lock free again. */
  lemma SearchReturns(s: State, nodes: seq<nat>, i: nat)
    requires Chain(s.heap, s.head, nodes) && nodes != [] && (forall k :: 0 <= k < |nodes| ==> nodes[k] in s.heap)
    requires i < |s.searchers| && s.searchers[i].SeaIdle? && s.searchLock.Nobody?
    ensures Run(s, Searches(i, |nodes| + 2)).searchers == s.searchers[i := SeaUnlock(Values(s.heap, nodes))]
    ensures Run(s, Searches(i, |nodes| + 3)) == s
  {
    assert Linked(s.heap, nodes, 0);
    var locked := Step(s, Search(i));
    var started := Step(locked, Search(i));
    SearchesOn(s, i, |nodes| + 2);
    SearchesOn(locked, i, |nodes| + 1);
    assert Values(s.heap, nodes)[..0] == [];
    VisitsEnd(s, started, nodes, i, 0);
    SearchesLast(s, i, |nodes| + 2);
    assert s.searchers[i := SeaIdle] == s.searchers;
  }
}
